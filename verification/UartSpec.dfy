/** The 16550A UART as functions on its registers and FIFO contents (src/device/serial.cpp,
    lines 46-122 for the bits, 124-623 and 698-717 for the code). */
module UartSpec {
  /** Bit 0 is the least significant. */
  datatype Byte = Byte(b0: bool, b1: bool, b2: bool, b3: bool, b4: bool, b5: bool, b6: bool, b7: bool)

  const ZERO := Byte(false, false, false, false, false, false, false, false)
  const FIFO_LENGTH: nat := 16

  // ---- the registers, bit by bit ----

  datatype Ier = Ier(rdi: bool, thri: bool, rlsi: bool, msi: bool)
  datatype Msr = Msr(dcts: bool, ddsr: bool, teri: bool, ddcd: bool, cts: bool, dsr: bool, ri: bool, dcd: bool)
  datatype Mcr = Mcr(dtr: bool, rts: bool, out1: bool, out2: bool, loop: bool)
  datatype Fcr = Fcr(fe: bool, dms: bool, itl0: bool, itl1: bool)

  /** The low half of IIR. */
  datatype Id = Msi | NoInt | Thri | Rdi | Rlsi | Cti

  function IerOf(v: Byte): Ier { Ier(v.b0, v.b1, v.b2, v.b3) }
  function McrOf(v: Byte): Mcr { Mcr(v.b0, v.b1, v.b2, v.b3, v.b4) }
  function FcrOf(v: Byte): Fcr { Fcr(v.b0, v.b3, v.b6, v.b7) }
  function IerByte(r: Ier): Byte { Byte(r.rdi, r.thri, r.rlsi, r.msi, false, false, false, false) }
  function LsrByte(rx: Rx, tx: Tx): Byte { Byte(rx.dr, rx.oe, rx.pe, rx.fe, rx.bi, tx.thre, tx.temt, false) }
  function MsrByte(r: Msr): Byte { Byte(r.dcts, r.ddsr, r.teri, r.ddcd, r.cts, r.dsr, r.ri, r.dcd) }
  function McrByte(r: Mcr): Byte { Byte(r.dtr, r.rts, r.out1, r.out2, r.loop, false, false, false) }

  /** The codes are 0x00, 0x01, 0x02, 0x04, 0x06 and 0x0C. */
  function IirByte(id: Id, fifos: bool): Byte {
    Byte(id == NoInt, id == Thri || id == Rlsi, id == Rdi || id == Rlsi || id == Cti, id == Cti, false, false, fifos, fifos)
  }

  // ---- the state ----

  /** The receiver and its half of LSR. */
  datatype Rx = Rx(fifo: seq<Byte>, rbr: Byte, dr: bool, oe: bool, pe: bool, fe: bool, bi: bool, timeout: bool)

  /** The transmitter and its half of LSR; `pending` is thr_ipending, `sent` what went out. */
  datatype Tx = Tx(fifo: seq<Byte>, thr: Byte, tsr: Byte, thre: bool, temt: bool, pending: bool, retry: nat, sent: seq<Byte>)

  /** `itl` is recv_fifo_itl. */
  datatype Ctl = Ctl(ier: Ier, mcr: Mcr, fcr: Fcr, itl: nat, lcr: Byte, scr: Byte, dll: Byte, dlm: Byte, lastBreak: bool)

  datatype Modem = Modem(msr: Msr, poll: int)

  /** IIR and the interrupt line. */
  datatype Irq = Irq(id: Id, fifos: bool, raised: bool)

  datatype Uart = Uart(ctl: Ctl, rx: Rx, tx: Tx, modem: Modem, irq: Irq)

  /** The modem inputs. */
  datatype Lines = Lines(cts: bool, dsr: bool, ri: bool, dcd: bool)

  datatype Step =
    | Write(addr: nat, val: Byte, lines: Lines)
    | Read(addr: nat, lines: Lines)
    | Receive(data: Byte)
    | Break
    | Timeout
    | BackendChange(lines: Lines)

  // ---- interrupts ----

  predicate LineError(rx: Rx) {
    rx.oe || rx.pe || rx.fe || rx.bi
  }

  predicate AnyDelta(m: Msr) {
    m.dcts || m.ddsr || m.teri || m.ddcd
  }

  predicate DataPending(c: Ctl, rx: Rx) {
    rx.dr && (!c.fcr.fe || |rx.fifo| >= c.itl)
  }

  function InterruptId(u: Uart): Id {
    if u.ctl.ier.rlsi && LineError(u.rx) then Rlsi
    else if u.ctl.ier.rdi && u.rx.timeout then Cti
    else if u.ctl.ier.rdi && DataPending(u.ctl, u.rx) then Rdi
    else if u.ctl.ier.thri && u.tx.pending then Thri
    else if u.ctl.ier.msi && AnyDelta(u.modem.msr) then Msi
    else NoInt
  }

  function UpdateIrq(u: Uart): Uart {
    u.(irq := Irq(InterruptId(u), u.irq.fifos, InterruptId(u) != NoInt))
  }

  /** serial_update_msl: the inputs, and which of them changed; RI only when it fell. */
  function NewMsr(m: Msr, l: Lines): Msr {
    Msr(m.dcts || l.cts != m.cts, m.ddsr || l.dsr != m.dsr, m.ri && (m.teri || !l.ri), m.ddcd || l.dcd != m.dcd,
        l.cts, l.dsr, l.ri, l.dcd)
  }

  function UpdateMsl(u: Uart, l: Lines): Uart {
    var m := u.modem.msr;
    if l == Lines(m.cts, m.dsr, m.ri, m.dcd) then u else UpdateIrq(u.(modem := u.modem.(msr := NewMsr(m, l))))
  }

  // ---- receiving ----

  /** recv_fifo_put: an overrun does not overwrite. */
  function Put(rx: Rx, c: Byte): Rx {
    if |rx.fifo| != FIFO_LENGTH then rx.(fifo := rx.fifo + [c]) else rx.(oe := true)
  }

  function RxByte(fifos: bool, rx: Rx, c: Byte): Rx {
    if fifos then Put(rx, c).(dr := true) else rx.(rbr := c, oe := rx.oe || rx.dr, dr := true)
  }

  function ReceiveByte(u: Uart, c: Byte): Uart {
    UpdateIrq(u.(rx := RxByte(u.ctl.fcr.fe, u.rx, c)))
  }

  function ReceiveBreak(u: Uart): Uart {
    UpdateIrq(u.(rx := Put(u.rx, ZERO).(rbr := ZERO, bi := true, dr := true)))
  }

  function TimeoutInt(u: Uart): Uart {
    if |u.rx.fifo| > 0 then UpdateIrq(u.(rx := u.rx.(timeout := true))) else u
  }

  /** serial_can_receive: how many bytes are welcome. */
  function CanReceive(u: Uart): int {
    var n := |u.rx.fifo|;
    if u.ctl.fcr.fe then
      if n < FIFO_LENGTH then (if n <= u.ctl.itl then u.ctl.itl - n else 1) else 0
    else if u.rx.dr then 0 else 1
  }

  // ---- transmitting ----

  /** serial_xmit may start: its assertions hold. */
  predicate Loaded(fifos: bool, tx: Tx) {
    !tx.temt && !tx.thre && tx.retry == 0 && (fifos ==> |tx.fifo| > 0)
  }

  /** The byte moves to the shift register. */
  function TxShift(fifos: bool, tx: Tx): Tx
    requires Loaded(fifos, tx)
  {
    if fifos then tx.(tsr := tx.fifo[0], fifo := tx.fifo[1..], thre := |tx.fifo| == 1, pending := tx.pending || |tx.fifo| == 1)
    else tx.(tsr := tx.thr, thre := true, pending := true)
  }

  function Shift(u: Uart): Uart
    requires Loaded(u.ctl.fcr.fe, u.tx)
  {
    var u' := u.(tx := TxShift(u.ctl.fcr.fe, u.tx));
    if u'.tx.pending != u.tx.pending then UpdateIrq(u') else u'
  }

  /** It leaves: back to the receiver in loopback, else to the connection. */
  function Emit(u: Uart): Uart {
    var u' := if u.ctl.mcr.loop then ReceiveByte(u, u.tx.tsr) else u.(tx := u.tx.(sent := u.tx.sent + [u.tx.tsr]));
    u'.(tx := u'.tx.(retry := 0))
  }

  function Xmit(u: Uart): Uart
    requires Loaded(u.ctl.fcr.fe, u.tx)
    decreases |u.tx.fifo|
  {
    var u' := Emit(Shift(u));
    if !u'.tx.thre then Xmit(u') else u'.(tx := u'.tx.(temt := true))
  }

  // ---- register writes ----

  /** Register 0: the byte to send; an overrun of the FIFO drops the oldest. */
  function TxLoad(fifos: bool, tx: Tx, val: Byte): Tx {
    var fifo := if !fifos then tx.fifo
                else if |tx.fifo| == FIFO_LENGTH then tx.fifo[1..] + [val]
                else tx.fifo + [val];
    tx.(fifo := fifo, thr := val, pending := false, thre := false, temt := false)
  }

  function WriteThr(u: Uart, val: Byte): Uart
    requires u.tx.retry == 0
  {
    Xmit(UpdateIrq(u.(tx := TxLoad(u.ctl.fcr.fe, u.tx, val))))
  }

  /** Polling of the modem lines follows IER.MSI. */
  function Poll(u: Uart, was: bool, lines: Lines): Uart {
    if was != u.ctl.ier.msi && u.modem.poll >= 0 then
      if u.ctl.ier.msi then UpdateMsl(u.(modem := u.modem.(poll := 1)), lines) else u.(modem := u.modem.(poll := 0))
    else u
  }

  function WriteIer(u: Uart, val: Byte, lines: Lines): Uart {
    var was, ier := u.ctl.ier, IerOf(val);
    var u1 := Poll(u.(ctl := u.ctl.(ier := ier)), was.msi, lines);
    var u2 := if was.thri != ier.thri then u1.(tx := u1.tx.(pending := ier.thri && u1.tx.thre)) else u1;
    if was != ier then UpdateIrq(u2) else u2
  }

  function Trigger(f: Fcr): nat {
    if !f.itl1 && !f.itl0 then 1
    else if !f.itl1 then 4
    else if !f.itl0 then 8
    else 14
  }

  /** serial_write_fcr. */
  function SetFcr(u: Uart, f: Fcr): Uart {
    u.(ctl := u.ctl.(fcr := f, itl := if f.fe then Trigger(f) else u.ctl.itl), irq := u.irq.(fifos := f.fe))
  }

  /** Turning the FIFOs on or off empties both. */
  function WriteFcr(u: Uart, val: Byte): Uart {
    var flush := val.b0 != u.ctl.fcr.fe;
    var rx := if val.b1 || flush then u.rx.(dr := false, bi := false, timeout := false, fifo := []) else u.rx;
    var tx := if val.b2 || flush then u.tx.(thre := true, pending := true, fifo := []) else u.tx;
    UpdateIrq(SetFcr(u.(rx := rx, tx := tx), FcrOf(val)))
  }

  function WriteReg(u: Uart, addr: nat, val: Byte, lines: Lines): Uart
    requires u.tx.retry == 0
  {
    WriteAt(u, addr % 8, val, lines)
  }

  function WriteAt(u: Uart, reg: nat, val: Byte, lines: Lines): Uart
    requires u.tx.retry == 0
  {
    match reg
    case 0 => if u.ctl.lcr.b7 then u.(ctl := u.ctl.(dll := val)) else WriteThr(u, val)
    case 1 => if u.ctl.lcr.b7 then u.(ctl := u.ctl.(dlm := val)) else WriteIer(u, val, lines)
    case 2 => WriteFcr(u, val)
    case 3 => u.(ctl := u.ctl.(lcr := val, lastBreak := val.b6))
    case 4 => u.(ctl := u.ctl.(mcr := McrOf(val)))
    case 7 => u.(ctl := u.ctl.(scr := val))
    case _ => u
  }

  // ---- register reads ----

  function RxRead(fifos: bool, rx: Rx): (Rx, Byte) {
    if !fifos then (rx.(dr := false, bi := false), rx.rbr)
    else if |rx.fifo| == 0 then (rx.(dr := false, bi := false, timeout := false), ZERO)
    else
      (rx.(fifo := rx.fifo[1..], timeout := false, dr := rx.dr && |rx.fifo| > 1, bi := rx.bi && |rx.fifo| > 1), rx.fifo[0])
  }

  function ReadRbr(u: Uart): (Uart, Byte) {
    var (rx, c) := RxRead(u.ctl.fcr.fe, u.rx);
    (UpdateIrq(u.(rx := rx)), c)
  }

  function ReadIir(u: Uart): (Uart, Byte) {
    var iir := IirByte(u.irq.id, u.irq.fifos);
    (if iir.b1 && !iir.b2 then UpdateIrq(u.(tx := u.tx.(pending := false))) else u, iir)
  }

  function ReadLsr(u: Uart): (Uart, Byte) {
    (if u.rx.bi || u.rx.oe then UpdateIrq(u.(rx := u.rx.(bi := false, oe := false))) else u, LsrByte(u.rx, u.tx))
  }

  function NoDelta(m: Msr): Msr {
    m.(dcts := false, ddsr := false, teri := false, ddcd := false)
  }

  /** In loopback the modem outputs are the inputs. */
  function ReadMsr(u: Uart, lines: Lines): (Uart, Byte) {
    var mcr := u.ctl.mcr;
    if mcr.loop then (u, Byte(false, false, false, false, mcr.rts, mcr.dtr, mcr.out1, mcr.out2))
    else
      var u1 := if u.modem.poll >= 0 then UpdateMsl(u, lines) else u;
      var m := u1.modem.msr;
      (if AnyDelta(m) then UpdateIrq(u1.(modem := u1.modem.(msr := NoDelta(m)))) else u1, MsrByte(m))
  }

  function ReadReg(u: Uart, addr: nat, lines: Lines): (Uart, Byte) {
    match addr % 8
    case 0 => if u.ctl.lcr.b7 then (u, u.ctl.dll) else ReadRbr(u)
    case 1 => if u.ctl.lcr.b7 then (u, u.ctl.dlm) else (u, IerByte(u.ctl.ier))
    case 2 => ReadIir(u)
    case 3 => (u, u.ctl.lcr)
    case 4 => (u, McrByte(u.ctl.mcr))
    case 5 => ReadLsr(u)
    case 6 => ReadMsr(u, lines)
    case _ => (u, u.ctl.scr)
  }

  function BackendChanged(u: Uart, lines: Lines): Uart {
    UpdateMsl(u.(modem := u.modem.(poll := if u.ctl.ier.msi then 1 else 0)), lines)
  }

  function Next(u: Uart, s: Step): Uart
    requires u.tx.retry == 0
  {
    match s
    case Write(addr, val, lines) => WriteReg(u, addr, val, lines)
    case Read(addr, lines) => ReadReg(u, addr, lines).0
    case Receive(data) => ReceiveByte(u, data)
    case Break => ReceiveBreak(u)
    case Timeout => TimeoutInt(u)
    case BackendChange(lines) => BackendChanged(u, lines)
  }

  /** serial_reset; FCR and the trigger level stay as they were. */
  function Reset(fcr: Fcr, itl: nat, lines: Lines): Uart {
    var u := Uart(Ctl(Ier(false, false, false, false), Mcr(false, false, false, true, false), fcr, itl, ZERO, ZERO,
                      Byte(false, false, true, true, false, false, false, false), ZERO, false),
                  Rx([], ZERO, false, false, false, false, false, false),
                  Tx([], ZERO, ZERO, true, true, false, 0, []),
                  Modem(Msr(false, false, false, false, true, true, false, true), 0),
                  Irq(NoInt, false, false));
    var u' := UpdateMsl(u, lines);
    u'.(modem := u'.modem.(msr := NoDelta(u'.modem.msr)))
  }
}
