/** SerialState as an object (src/device/serial.cpp): every access changes its registers, the
    two FIFOs and the interrupt line in place, exactly as the register functions say. */
module Serial {
  import opened Fifos
  import opened UartSpec
  import opened UartProof

  class SerialState {
    var ctl: Ctl
    var rx: Rx                       // but for the FIFO, which is recvFifo
    var tx: Tx                       // but for the FIFO, which is xmitFifo
    var modem: Modem
    var irq: Irq
    const recvFifo: Fifo8<Byte>
    const xmitFifo: Fifo8<Byte>

    ghost function Repr(): set<object> {
      {this, recvFifo, recvFifo.data, xmitFifo, xmitFifo.data}
    }

    ghost predicate Valid()
      reads this, recvFifo, xmitFifo
    {
      && recvFifo != xmitFifo && recvFifo.data != xmitFifo.data
      && recvFifo.Valid() && xmitFifo.Valid()
      && recvFifo.data.Length == FIFO_LENGTH && xmitFifo.data.Length == FIFO_LENGTH
    }

    ghost function View(): (u: Uart)
      requires Valid()
      reads this, recvFifo, recvFifo.data, xmitFifo, xmitFifo.data
    {
      Uart(ctl, rx.(fifo := recvFifo.Contents()), tx.(fifo := xmitFifo.Contents()), modem, irq)
    }

    /** serial_reset, with what FCR and the trigger level happen to hold. */
    constructor (fcr: Fcr, itl: nat, lines: Lines)
      ensures Valid() && fresh(Repr()) && View() == UartSpec.Reset(fcr, itl, lines)
    {
      recvFifo := new Fifo8<Byte>(FIFO_LENGTH);
      xmitFifo := new Fifo8<Byte>(FIFO_LENGTH);
      ctl := Ctl(Ier(false, false, false, false), Mcr(false, false, false, true, false), fcr, itl, ZERO, ZERO,
                 Byte(false, false, true, true, false, false, false, false), ZERO, false);
      rx := Rx([], ZERO, false, false, false, false, false, false);
      tx := Tx([], ZERO, ZERO, true, true, false, 0, []);
      modem := Modem(Msr(false, false, false, false, true, true, false, true), 0);
      irq := Irq(NoInt, false, false);
      new;
      UpdateMsl(lines);
      modem := modem.(msr := NoDelta(modem.msr));
    }

    /** The cascade of tests in serial_update_irq. */
    method PendingId() returns (id: Id)
      requires Valid()
      ensures id == InterruptId(View())
    {
      id :=
        if ctl.ier.rlsi && (rx.oe || rx.pe || rx.fe || rx.bi) then Rlsi
        else if ctl.ier.rdi && rx.timeout then Cti
        else if ctl.ier.rdi && rx.dr && (!ctl.fcr.fe || recvFifo.num >= ctl.itl) then Rdi
        else if ctl.ier.thri && tx.pending then Thri
        else if ctl.ier.msi && AnyDelta(modem.msr) then Msi
        else NoInt;
    }

    method UpdateIrq()
      requires Valid()
      modifies `irq
      ensures Valid() && View() == old(UartSpec.UpdateIrq(View()))
    {
      var id := PendingId();
      irq := Irq(id, irq.fifos, id != NoInt);
    }

    method UpdateMsl(lines: Lines)
      requires Valid()
      modifies `modem, `irq
      ensures Valid() && View() == old(UartSpec.UpdateMsl(View(), lines))
    {
      var m := modem.msr;
      if lines != Lines(m.cts, m.dsr, m.ri, m.dcd) {
        modem := modem.(msr := NewMsr(m, lines));
        UpdateIrq();
      }
    }

    method RecvFifoPut(c: Byte)
      requires Valid()
      modifies `rx, recvFifo, recvFifo.data
      ensures Valid() && View() == old(View().(rx := Put(View().rx, c)))
    {
      if recvFifo.num != FIFO_LENGTH {
        recvFifo.Push(c);
      } else {
        rx := rx.(oe := true);
      }
    }

    method Receive1(c: Byte)
      requires Valid()
      modifies Repr()
      ensures Valid() && View() == old(ReceiveByte(View(), c))
    {
      if ctl.fcr.fe {
        RecvFifoPut(c);
        rx := rx.(dr := true);
      } else {
        rx := rx.(oe := rx.oe || rx.dr, rbr := c, dr := true);
      }
      UpdateIrq();
    }

    method PutBreak()
      requires Valid()
      modifies `rx, recvFifo, recvFifo.data
      ensures Valid() && View() == old(View().(rx := Put(View().rx, ZERO).(rbr := ZERO, bi := true, dr := true)))
    {
      RecvFifoPut(ZERO);
      rx := rx.(rbr := ZERO, bi := true, dr := true);
    }

    method ReceiveBreak()
      requires Valid()
      modifies Repr()
      ensures Valid() && View() == old(UartSpec.ReceiveBreak(View()))
    {
      PutBreak();
      UpdateIrq();
    }

    method FifoTimeoutInt()
      requires Valid()
      modifies `rx, `irq
      ensures Valid() && View() == old(TimeoutInt(View()))
    {
      if recvFifo.num > 0 {
        rx := rx.(timeout := true);
        UpdateIrq();
      }
    }

    /** The first half of serial_xmit's loop. */
    method ShiftByte()
      requires Valid() && Loaded(ctl.fcr.fe, View().tx)
      modifies Repr()
      ensures Valid() && View() == old(Shift(View()))
    {
      if ctl.fcr.fe {
        var c := xmitFifo.Pop();
        tx := tx.(tsr := c);
        if xmitFifo.num == 0 {
          tx := tx.(thre := true);
        }
      } else {
        tx := tx.(tsr := tx.thr, thre := true);
      }
      if tx.thre && !tx.pending {
        tx := tx.(pending := true);
        UpdateIrq();
      }
    }

    method EmitByte()
      requires Valid()
      modifies Repr()
      ensures Valid() && View() == old(Emit(View()))
    {
      if ctl.mcr.loop {
        Receive1(tx.tsr);
      } else {
        tx := tx.(sent := tx.sent + [tx.tsr]);
      }
      tx := tx.(retry := 0);
    }

    /** Once round the loop of serial_xmit, with its assertions. */
    method XmitOne()
      requires Valid() && Loaded(ctl.fcr.fe, View().tx)
      modifies Repr()
      ensures Valid() && View() == old(Emit(Shift(View())))
    {
      assert !tx.temt && !tx.thre && (ctl.fcr.fe ==> xmitFifo.num > 0);
      ShiftByte();
      EmitByte();
    }

    /** serial_xmit: its loop ends, and its assertions hold each time round. */
    method Xmit()
      requires Valid() && Loaded(ctl.fcr.fe, View().tx)
      modifies Repr()
      ensures Valid() && View() == old(UartSpec.Xmit(View()))
    {
      ghost var target := UartSpec.Xmit(View());
      XmitUnfolds(View());
      XmitOne();
      while !tx.thre
        invariant Valid()
        invariant !tx.thre ==> Loaded(ctl.fcr.fe, View().tx) && UartSpec.Xmit(View()) == target
        invariant tx.thre ==> View().(tx := View().tx.(temt := true)) == target
        decreases |View().tx.fifo| + (if tx.thre then 0 else 1)
      {
        XmitUnfolds(View());
        XmitOne();
      }
      tx := tx.(temt := true);
    }

    method WriteThr(val: Byte)
      requires Valid() && tx.retry == 0
      modifies Repr()
      ensures Valid() && View() == old(UartSpec.WriteThr(View(), val))
    {
      LoadThr(val);
      UpdateIrq();
      Xmit();
    }

    method LoadThr(val: Byte)
      requires Valid()
      modifies Repr()
      ensures Valid() && View() == old(View().(tx := TxLoad(ctl.fcr.fe, View().tx, val)))
    {
      tx := tx.(thr := val);
      if ctl.fcr.fe {
        if xmitFifo.num == FIFO_LENGTH {
          var dropped := xmitFifo.Pop();
        }
        xmitFifo.Push(val);
      }
      tx := tx.(pending := false, thre := false, temt := false);
    }

    method PollMsl(was: bool, lines: Lines)
      requires Valid()
      modifies `modem, `irq
      ensures Valid() && View() == old(Poll(View(), was, lines))
    {
      if was != ctl.ier.msi && modem.poll >= 0 {
        if ctl.ier.msi {
          modem := modem.(poll := 1);
          UpdateMsl(lines);
        } else {
          modem := modem.(poll := 0);
        }
      }
    }

    /** Turning the THRE interrupt on can trigger it. */
    method ResampleThre(was: bool)
      requires Valid()
      modifies `tx
      ensures Valid()
      ensures View() == old(if was != ctl.ier.thri then View().(tx := View().tx.(pending := ctl.ier.thri && tx.thre)) else View())
    {
      if was != ctl.ier.thri {
        tx := tx.(pending := ctl.ier.thri && tx.thre);
      }
    }

    method WriteIer(val: Byte, lines: Lines)
      requires Valid()
      modifies Repr()
      ensures Valid() && View() == old(UartSpec.WriteIer(View(), val, lines))
    {
      var was := ctl.ier;
      ctl := ctl.(ier := IerOf(val));
      PollMsl(was.msi, lines);
      ResampleThre(was.thri);
      if was != ctl.ier {
        UpdateIrq();
      }
    }

    method ClearRecv()
      requires Valid()
      modifies Repr()
      ensures Valid() && View() == old(View().(rx := View().rx.(dr := false, bi := false, timeout := false, fifo := [])))
    {
      rx := rx.(dr := false, bi := false, timeout := false);
      recvFifo.Reset();
    }

    method ClearXmit()
      requires Valid()
      modifies Repr()
      ensures Valid() && View() == old(View().(tx := View().tx.(thre := true, pending := true, fifo := [])))
    {
      tx := tx.(thre := true, pending := true);
      xmitFifo.Reset();
    }

    method StoreFcr(f: Fcr)
      requires Valid()
      modifies this
      ensures Valid() && View() == old(SetFcr(View(), f))
    {
      ctl := ctl.(fcr := f);
      irq := irq.(fifos := f.fe);
      if f.fe {
        ctl := ctl.(itl := Trigger(f));
      }
    }

    method WriteFcr(val: Byte)
      requires Valid()
      modifies Repr()
      ensures Valid() && View() == old(UartSpec.WriteFcr(View(), val))
    {
      var flush := val.b0 != ctl.fcr.fe;
      if val.b1 || flush {
        ClearRecv();
      }
      if val.b2 || flush {
        ClearXmit();
      }
      StoreFcr(FcrOf(val));
      UpdateIrq();
    }

    method IoportWrite(addr: nat, val: Byte, lines: Lines)
      requires Valid() && tx.retry == 0
      modifies Repr()
      ensures Valid() && View() == old(WriteReg(View(), addr, val, lines))
    {
      match addr % 8
      case 0 => if ctl.lcr.b7 { ctl := ctl.(dll := val); } else { WriteThr(val); }
      case 1 => if ctl.lcr.b7 { ctl := ctl.(dlm := val); } else { WriteIer(val, lines); }
      case 2 => WriteFcr(val);
      case 3 => ctl := ctl.(lcr := val, lastBreak := val.b6);
      case 4 => ctl := ctl.(mcr := McrOf(val));
      case 7 => ctl := ctl.(scr := val);
      case _ =>
    }

    method ReadRbr() returns (c: Byte)
      requires Valid()
      modifies Repr()
      ensures Valid() && (View(), c) == old(UartSpec.ReadRbr(View()))
    {
      if ctl.fcr.fe {
        c := ZERO;
        if recvFifo.num > 0 {
          c := recvFifo.Pop();
        }
        if recvFifo.num == 0 {
          rx := rx.(dr := false, bi := false);
        }
        rx := rx.(timeout := false);
      } else {
        c := rx.rbr;
        rx := rx.(dr := false, bi := false);
      }
      UpdateIrq();
    }

    method ReadMsr(lines: Lines) returns (c: Byte)
      requires Valid()
      modifies Repr()
      ensures Valid() && (View(), c) == old(UartSpec.ReadMsr(View(), lines))
    {
      if ctl.mcr.loop {
        return Byte(false, false, false, false, ctl.mcr.rts, ctl.mcr.dtr, ctl.mcr.out1, ctl.mcr.out2);
      }
      if modem.poll >= 0 {
        UpdateMsl(lines);
      }
      c := MsrByte(modem.msr);
      if AnyDelta(modem.msr) {
        modem := modem.(msr := NoDelta(modem.msr));
        UpdateIrq();
      }
    }

    method ReadIir() returns (c: Byte)
      requires Valid()
      modifies Repr()
      ensures Valid() && (View(), c) == old(UartSpec.ReadIir(View()))
    {
      c := IirByte(irq.id, irq.fifos);
      if c.b1 && !c.b2 {
        tx := tx.(pending := false);
        UpdateIrq();
      }
    }

    method ReadLsr() returns (c: Byte)
      requires Valid()
      modifies Repr()
      ensures Valid() && (View(), c) == old(UartSpec.ReadLsr(View()))
    {
      c := LsrByte(rx, tx);
      if rx.bi || rx.oe {
        rx := rx.(bi := false, oe := false);
        UpdateIrq();
      }
    }

    method IoportRead(addr: nat, lines: Lines) returns (c: Byte)
      requires Valid()
      modifies Repr()
      ensures Valid() && (View(), c) == old(ReadReg(View(), addr, lines))
    {
      match addr % 8
      case 0 => if ctl.lcr.b7 { c := ctl.dll; } else { c := ReadRbr(); }
      case 1 => c := if ctl.lcr.b7 then ctl.dlm else IerByte(ctl.ier);
      case 2 => c := ReadIir();
      case 3 => c := ctl.lcr;
      case 4 => c := McrByte(ctl.mcr);
      case 5 => c := ReadLsr();
      case 6 => c := ReadMsr(lines);
      case _ => c := ctl.scr;
    }

    method BeChange(lines: Lines)
      requires Valid()
      modifies Repr()
      ensures Valid() && View() == old(BackendChanged(View(), lines))
    {
      modem := modem.(poll := if ctl.ier.msi then 1 else 0);
      UpdateMsl(lines);
    }

    method CanReceive() returns (n: int)
      requires Valid()
      ensures n == UartSpec.CanReceive(View())
    {
      if ctl.fcr.fe {
        n := if recvFifo.num < FIFO_LENGTH then
               (if recvFifo.num <= ctl.itl then ctl.itl - recvFifo.num else 1)
             else 0;
      } else {
        n := if rx.dr then 0 else 1;
      }
    }

    method AcceptByte(c: Byte)
      requires Valid()
      modifies Repr()
      ensures Valid() && View() == old(TimeoutInt(ReceiveByte(View(), c)))
    {
      Receive1(c);
      FifoTimeoutInt();
    }

    /** serial_check_io: the bytes waiting are taken while there is room for them. */
    method CheckIo(input: seq<Byte>) returns (taken: nat)
      requires Valid()
      modifies Repr()
      ensures Valid() && taken == old(DrainCount(View(), input)) && View() == old(Drain(View(), input))
    {
      taken := 0;
      var room := CanReceive();
      while room != 0 && taken < |input|
        invariant Valid() && taken <= |input| && room == UartSpec.CanReceive(View())
        invariant Drain(View(), input[taken..]) == old(Drain(View(), input))
        invariant taken + DrainCount(View(), input[taken..]) == old(DrainCount(View(), input))
        decreases |input| - taken
      {
        AcceptByte(input[taken]);
        assert input[taken..][0] == input[taken] && input[taken..][1..] == input[taken + 1..];
        taken := taken + 1;
        room := CanReceive();
      }
    }

    method Take(s: Step)
      requires Valid() && tx.retry == 0
      modifies Repr()
      ensures Valid() && View() == old(Next(View(), s))
    {
      match s
      case Write(addr, val, lines) => IoportWrite(addr, val, lines);
      case Read(addr, lines) => var c := IoportRead(addr, lines);
      case Receive(data) => Receive1(data);
      case Break => ReceiveBreak();
      case Timeout => FifoTimeoutInt();
      case BackendChange(lines) => BeChange(lines);
    }
  }

  /** Any sequence of accesses from a reset with FCR clear. */
  method Session(fcr: Fcr, itl: nat, lines: Lines, steps: seq<Step>) returns (s: SerialState)
    requires !fcr.fe
    ensures s.Valid() && Inv(Reset(fcr, itl, lines)) && s.View() == After(Reset(fcr, itl, lines), steps)
    ensures Reports(s.View())
  {
    s := new SerialState(fcr, itl, lines);
    ResetInv(fcr, itl, lines);
    var i := 0;
    while i < |steps|
      invariant 0 <= i <= |steps| && s.Valid() && fresh(s.Repr())
      invariant s.View() == After(Reset(fcr, itl, lines), steps[..i])
    {
      assert steps[..i + 1][..i] == steps[..i];
      s.Take(steps[i]);
      i := i + 1;
    }
    assert steps[..i] == steps;
    HighestFirst(s.View());
  }
}
