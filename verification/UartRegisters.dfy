/** What the guest reads from each register of the UART, told from the accesses before it alone
    (src/device/serial.cpp, lines 288-516). */
module UartRegisters {
  import opened UartSpec
  import opened UartProof

  // ---- what was written ----

  predicate Writes(s: Step, reg: nat) {
    s.Write? && s.addr % 8 == reg
  }

  predicate Reads(s: Step, reg: nat) {
    s.Read? && s.addr % 8 == reg
  }

  function Before(steps: seq<Step>): seq<Step>
    requires |steps| > 0
  {
    steps[..|steps| - 1]
  }

  function Last(steps: seq<Step>): Step
    requires |steps| > 0
  {
    steps[|steps| - 1]
  }

  /** The byte last written to a register, or what it held from the start. */
  function Written(steps: seq<Step>, reg: nat, start: Byte): Byte {
    if |steps| == 0 then start
    else if Writes(Last(steps), reg) then Last(steps).val
    else Written(Before(steps), reg, start)
  }

  predicate Dlab(steps: seq<Step>) {
    Written(steps, 3, ZERO).b7
  }

  /** The same, counting only writes made while DLAB was as given. */
  function WrittenUnder(steps: seq<Step>, reg: nat, dlab: bool, start: Byte): Byte {
    if |steps| == 0 then start
    else if Writes(Last(steps), reg) && Dlab(Before(steps)) == dlab then Last(steps).val
    else WrittenUnder(Before(steps), reg, dlab, start)
  }

  const MCR_AT_RESET := Byte(false, false, false, true, false, false, false, false)
  const DIVIDER_AT_RESET := Byte(false, false, true, true, false, false, false, false)

  function Control(steps: seq<Step>): Byte { Written(steps, 4, MCR_AT_RESET) }
  function Enabled(steps: seq<Step>): Byte { WrittenUnder(steps, 1, false, ZERO) }
  predicate Fifos(steps: seq<Step>) { Written(steps, 2, ZERO).b0 }
  predicate Loopback(steps: seq<Step>) { Control(steps).b4 }

  // ---- what came in ----

  /** A byte arrives: from outside, as a break, or as one sent in loopback. */
  predicate Arrives(before: seq<Step>, s: Step) {
    s.Receive? || s.Break? || (Writes(s, 0) && !Dlab(before) && Loopback(before))
  }

  function Arrival(before: seq<Step>, s: Step): Byte
    requires Arrives(before, s)
  {
    match s
    case Receive(data) => data
    case Break => ZERO
    case Write(_, val, _) => val
  }

  /** A break goes to the FIFO even while the FIFOs are off. */
  predicate Queues(before: seq<Step>, s: Step) {
    Arrives(before, s) && (Fifos(before) || s.Break?)
  }

  predicate Takes(before: seq<Step>, s: Step) {
    Reads(s, 0) && !Dlab(before)
  }

  /** The receive FIFO is cleared: on request, or because the FIFOs go on or off. */
  predicate Clears(before: seq<Step>, s: Step) {
    Writes(s, 2) && (s.val.b1 || s.val.b0 != Fifos(before))
  }

  function Queue(steps: seq<Step>): seq<Byte> {
    if |steps| == 0 then []
    else
      var before, s := Before(steps), Last(steps);
      var q := Queue(before);
      if Clears(before, s) then []
      else if Queues(before, s) then (if |q| < 16 then q + [Arrival(before, s)] else q)
      else if Takes(before, s) && Fifos(before) && |q| > 0 then q[1..]
      else q
  }

  /** Something came since register 0 was last read. */
  predicate Unread(steps: seq<Step>) {
    |steps| > 0 && (
      var before, s := Before(steps), Last(steps);
      Arrives(before, s) || (!Clears(before, s) && !Takes(before, s) && Unread(before)))
  }

  /** The byte in the receive buffer register, which only the character mode fills. */
  function Held(steps: seq<Step>): Byte {
    if |steps| == 0 then ZERO
    else
      var before, s := Before(steps), Last(steps);
      if Arrives(before, s) && (!Fifos(before) || s.Break?) then Arrival(before, s) else Held(before)
  }

  /** There is no room for what comes. */
  predicate Overruns(before: seq<Step>, s: Step) {
    Arrives(before, s) && (if Queues(before, s) then |Queue(before)| == 16 else Unread(before))
  }

  /** A byte was lost since LSR was last read. */
  predicate Lost(steps: seq<Step>) {
    |steps| > 0 && (Overruns(Before(steps), Last(steps)) || (!Reads(Last(steps), 5) && Lost(Before(steps))))
  }

  /** A break came, and neither was LSR read since nor all that was waiting. */
  predicate Broken(steps: seq<Step>) {
    |steps| > 0 && (
      var before, s := Before(steps), Last(steps);
      s.Break? || (
        && !Clears(before, s) && !Reads(s, 5)
        && (Takes(before, s) ==> Fifos(before) && |Queue(before)| > 1)
        && Broken(before)))
  }

  // ---- the modem lines ----

  /** The modem lines are sampled. */
  predicate Samples(before: seq<Step>, s: Step) {
    || s.BackendChange?
    || (Reads(s, 6) && !Loopback(before))
    || (Writes(s, 1) && !Dlab(before) && s.val.b3 && !Enabled(before).b3)
  }

  predicate SampleClears(before: seq<Step>, s: Step) {
    Reads(s, 6) && !Loopback(before)
  }

  /** The lines at the latest sample. */
  function Seen(start: Lines, steps: seq<Step>): Lines {
    if |steps| == 0 then start
    else if Samples(Before(steps), Last(steps)) then Last(steps).lines
    else Seen(start, Before(steps))
  }

  predicate ChangesNow(start: Lines, before: seq<Step>, s: Step, p: Pin) {
    Samples(before, s) && Level(s.lines, p) != Level(Seen(start, before), p)
  }

  /** A line was seen to change since MSR was last read. */
  predicate Changed(start: Lines, steps: seq<Step>, p: Pin) {
    && |steps| > 0 && !SampleClears(Before(steps), Last(steps))
    && (Changed(start, Before(steps), p) || ChangesNow(start, Before(steps), Last(steps), p))
  }

  /** The ring bit after an access, given the one before it: the latest change decides. */
  predicate RingsWith(start: Lines, before: seq<Step>, s: Step, rang: bool) {
    if Samples(before, s) && s.lines != Seen(start, before) then Seen(start, before).ri && !s.lines.ri else rang
  }

  predicate Rang(start: Lines, steps: seq<Step>) {
    && |steps| > 0 && !SampleClears(Before(steps), Last(steps))
    && RingsWith(start, Before(steps), Last(steps), Rang(start, Before(steps)))
  }

  // ---- the interrupts ----

  /** The receive FIFO has not been read for a while. */
  predicate TimedOut(steps: seq<Step>) {
    |steps| > 0 && (
      var before, s := Before(steps), Last(steps);
      || (s.Timeout? && Queue(before) != [])
      || (!Clears(before, s) && !(Takes(before, s) && Fifos(before)) && TimedOut(before)))
  }

  /** Section 8.4 of the PC16550D data sheet, FCR bits 7 and 6. */
  function TriggerLevel(b7: bool, b6: bool): nat {
    match (b7, b6)
    case (false, false) => 1
    case (false, true) => 4
    case (true, false) => 8
    case (true, true) => 14
  }

  predicate WantsLine(steps: seq<Step>) {
    Enabled(steps).b2 && (Lost(steps) || Broken(steps))
  }

  predicate WantsTimeout(steps: seq<Step>) {
    Enabled(steps).b0 && TimedOut(steps)
  }

  predicate WantsData(steps: seq<Step>) {
    var fcr := Written(steps, 2, ZERO);
    Enabled(steps).b0 && (if fcr.b0 then |Queue(steps)| >= TriggerLevel(fcr.b7, fcr.b6) else Unread(steps))
  }

  /** The transmitter asks for more: it sent a byte, was cleared or had its interrupt turned on,
      and IIR has not reported it since. */
  predicate AsksForMore(steps: seq<Step>) {
    |steps| > 0 && (
      var before, s := Before(steps), Last(steps);
      || (Writes(s, 0) && !Dlab(before))
      || (Writes(s, 2) && (s.val.b2 || s.val.b0 != Fifos(before)))
      || (Writes(s, 1) && !Dlab(before) && s.val.b1 && !Enabled(before).b1)
      || (&& AsksForMore(before)
          && !(Writes(s, 1) && !Dlab(before) && !s.val.b1 && Enabled(before).b1)
          && !(Reads(s, 2) && Enabled(before).b1 && !WantsLine(before) && !WantsTimeout(before) && !WantsData(before))))
  }

  predicate Wants(start: Lines, steps: seq<Step>, source: Source) {
    match source
    case LineStatus => WantsLine(steps)
    case CharTimeout => WantsTimeout(steps)
    case DataReady => WantsData(steps)
    case ThrEmpty => Enabled(steps).b1 && AsksForMore(steps)
    case ModemStatus =>
      && Enabled(steps).b3
      && (Changed(start, steps, Cts) || Changed(start, steps, Dsr) || Changed(start, steps, Dcd) || Rang(start, steps))
  }

  predicate WantsFirst(start: Lines, steps: seq<Step>, source: Source) {
    Wants(start, steps, source) && forall t :: Wants(start, steps, t) ==> Rank(source) <= Rank(t)
  }

  // ---- what a read returns ----

  function Sent(steps: seq<Step>): Byte {
    if !Fifos(steps) then Held(steps) else if Queue(steps) == [] then ZERO else Queue(steps)[0]
  }

  function LineStatusOf(steps: seq<Step>): Byte {
    Byte(if Fifos(steps) then Queue(steps) != [] else Unread(steps), Lost(steps), false, false, Broken(steps), true, true, false)
  }

  /** Reading MSR samples the lines itself. */
  function ModemStatusOf(start: Lines, steps: seq<Step>, lines: Lines): Byte {
    var m, read := Control(steps), Read(6, lines);
    if m.b4 then Byte(false, false, false, false, m.b1, m.b0, m.b2, m.b3)
    else Byte(Changed(start, steps, Cts) || ChangesNow(start, steps, read, Cts),
              Changed(start, steps, Dsr) || ChangesNow(start, steps, read, Dsr),
              RingsWith(start, steps, read, Rang(start, steps)),
              Changed(start, steps, Dcd) || ChangesNow(start, steps, read, Dcd),
              lines.cts, lines.dsr, lines.ri, lines.dcd)
  }

  function LowBits(v: Byte, mcr: bool): Byte {
    Byte(v.b0, v.b1, v.b2, v.b3, mcr && v.b4, false, false, false)
  }

  /** All registers but IIR. */
  function Returns(start: Lines, steps: seq<Step>, reg: nat, lines: Lines): Byte {
    match reg
    case 0 => if Dlab(steps) then WrittenUnder(steps, 0, true, DIVIDER_AT_RESET) else Sent(steps)
    case 1 => if Dlab(steps) then WrittenUnder(steps, 1, true, ZERO) else LowBits(Enabled(steps), false)
    case 3 => Written(steps, 3, ZERO)
    case 4 => LowBits(Control(steps), true)
    case 5 => LineStatusOf(steps)
    case 6 => ModemStatusOf(start, steps, lines)
    case _ => Written(steps, 7, ZERO)
  }

  // ---- the registers follow the accesses ----

  predicate CtlTracks(steps: seq<Step>, c: Ctl) {
    && c.lcr == Written(steps, 3, ZERO) && c.scr == Written(steps, 7, ZERO)
    && c.mcr == McrOf(Control(steps)) && c.ier == IerOf(Enabled(steps))
    && c.dll == WrittenUnder(steps, 0, true, DIVIDER_AT_RESET) && c.dlm == WrittenUnder(steps, 1, true, ZERO)
    && c.fcr.fe == Fifos(steps)
    && (c.fcr.fe ==> c.itl == TriggerLevel(Written(steps, 2, ZERO).b7, Written(steps, 2, ZERO).b6))
  }

  predicate RxTracks(steps: seq<Step>, rx: Rx) {
    && rx.fifo == Queue(steps) && rx.rbr == Held(steps)
    && (!Fifos(steps) ==> rx.dr == Unread(steps))
    && rx.oe == Lost(steps) && !rx.pe && !rx.fe && rx.bi == Broken(steps) && rx.timeout == TimedOut(steps)
  }

  predicate MsrTracks(start: Lines, steps: seq<Step>, m: Msr) {
    && InputsOf(m) == Seen(start, steps)
    && (forall p :: Delta(m, p) == Changed(start, steps, p))
    && m.teri == Rang(start, steps) && (m.teri ==> !m.ri)
  }

  // ---- one access ----

  lemma {:induction false} XmitFrame(u: Uart)
    requires Loaded(u.ctl.fcr.fe, u.tx)
    ensures var x := Xmit(u);
      x.ctl == u.ctl && x.modem == u.modem && x.tx.pending
    decreases |u.tx.fifo|
  {
    XmitUnfolds(u);
    var u' := Emit(Shift(u));
    if !u'.tx.thre { XmitFrame(u'); }
  }

  lemma ThrFrame(u: Uart, val: Byte)
    requires Inv(u)
    ensures var x := WriteThr(u, val);
      x.ctl == u.ctl && x.modem == u.modem && x.tx.pending
    ensures WriteThr(u, val).rx == if u.ctl.mcr.loop then RxByte(u.ctl.fcr.fe, u.rx, val) else u.rx
  {
    XmitFrame(UpdateIrq(u.(tx := TxLoad(u.ctl.fcr.fe, u.tx, val))));
    WriteThrSends(u, val);
    if u.ctl.mcr.loop { LoopbackReceives(u, val); }
  }

  /** What an access does to each register the guest writes. */
  predicate CtlFollows(c: Ctl, c': Ctl, s: Step) {
    && c'.lcr == (if Writes(s, 3) then s.val else c.lcr)
    && c'.scr == (if Writes(s, 7) then s.val else c.scr)
    && c'.mcr == (if Writes(s, 4) then McrOf(s.val) else c.mcr)
    && c'.dll == (if Writes(s, 0) && c.lcr.b7 then s.val else c.dll)
    && c'.dlm == (if Writes(s, 1) && c.lcr.b7 then s.val else c.dlm)
    && c'.ier == (if Writes(s, 1) && !c.lcr.b7 then IerOf(s.val) else c.ier)
    && c'.fcr.fe == (if Writes(s, 2) then s.val.b0 else c.fcr.fe)
    && (c'.fcr.fe ==> c'.itl == if Writes(s, 2) then TriggerLevel(s.val.b7, s.val.b6) else c.itl)
  }

  lemma CtlStep(u: Uart, s: Step)
    requires Inv(u)
    ensures CtlFollows(u.ctl, Next(u, s).ctl, s)
  {
    if Writes(s, 0) && !u.ctl.lcr.b7 { ThrFrame(u, s.val); }
    if s.Write? { WriteCtl(u, s); } else { OtherCtl(u, s); }
  }

  lemma OtherCtl(u: Uart, s: Step)
    requires !s.Write? && u.tx.retry == 0
    ensures Next(u, s).ctl == u.ctl
  {}

  lemma IerCtl(u: Uart, val: Byte, lines: Lines)
    ensures WriteIer(u, val, lines).ctl == u.ctl.(ier := IerOf(val))
  {
    PollKeeps(u.(ctl := u.ctl.(ier := IerOf(val))), u.ctl.ier.msi, lines);
  }

  lemma FcrCtl(u: Uart, val: Byte)
    ensures var c := WriteFcr(u, val).ctl;
      && c == u.ctl.(fcr := c.fcr, itl := c.itl) && c.fcr.fe == val.b0
      && (val.b0 ==> c.itl == TriggerLevel(val.b7, val.b6))
  {}

  lemma WriteCtl(u: Uart, s: Step)
    requires s.Write? && u.tx.retry == 0
    requires Writes(s, 0) && !u.ctl.lcr.b7 ==> WriteThr(u, s.val).ctl == u.ctl
    ensures CtlFollows(u.ctl, WriteReg(u, s.addr, s.val, s.lines).ctl, s)
  {
    if Writes(s, 1) && !u.ctl.lcr.b7 { IerCtl(u, s.val, s.lines); }
    else if Writes(s, 2) { FcrCtl(u, s.val); }
  }

  /** What it does to the receiver. */
  function RxAfter(c: Ctl, rx: Rx, s: Step): Rx {
    match s
    case Receive(data) => RxByte(c.fcr.fe, rx, data)
    case Break => Put(rx, ZERO).(rbr := ZERO, bi := true, dr := true)
    case Timeout => if |rx.fifo| > 0 then rx.(timeout := true) else rx
    case BackendChange(_) => rx
    case Write(addr, val, _) =>
      if addr % 8 == 0 && !c.lcr.b7 && c.mcr.loop then RxByte(c.fcr.fe, rx, val)
      else if addr % 8 == 2 && (val.b1 || val.b0 != c.fcr.fe) then rx.(dr := false, bi := false, timeout := false, fifo := [])
      else rx
    case Read(addr, _) =>
      if addr % 8 == 0 && !c.lcr.b7 then RxRead(c.fcr.fe, rx).0
      else if addr % 8 == 5 then rx.(bi := false, oe := false)
      else rx
  }

  lemma RxStep(u: Uart, s: Step)
    requires Inv(u)
    ensures Next(u, s).rx == RxAfter(u.ctl, u.rx, s)
  {
    if Writes(s, 0) && !u.ctl.lcr.b7 { ThrFrame(u, s.val); }
  }

  lemma MsrStep(u: Uart, s: Step)
    requires Inv(u) && u.modem.poll >= 0
    ensures Next(u, s).modem.poll >= 0
    ensures var m := u.modem.msr;
      Next(u, s).modem.msr ==
        if s.BackendChange? || (Writes(s, 1) && !u.ctl.lcr.b7 && s.val.b3 && !u.ctl.ier.msi) then SampleOf(m, s.lines)
        else if Reads(s, 6) && !u.ctl.mcr.loop then NoDelta(SampleOf(m, s.lines))
        else m
  {
    if Writes(s, 0) && !u.ctl.lcr.b7 { ThrFrame(u, s.val); }
  }

  function SampleOf(m: Msr, l: Lines): Msr {
    if l == InputsOf(m) then m else NewMsr(m, l)
  }

  lemma PendingStep(u: Uart, s: Step)
    requires Inv(u)
    ensures Next(u, s).tx.pending ==
      if Writes(s, 0) && !u.ctl.lcr.b7 then true
      else if Writes(s, 2) && (s.val.b2 || s.val.b0 != u.ctl.fcr.fe) then true
      else if Writes(s, 1) && !u.ctl.lcr.b7 && s.val.b1 != u.ctl.ier.thri then s.val.b1
      else if Reads(s, 2) && u.irq.id == Thri then false
      else u.tx.pending
  {
    if Writes(s, 0) && !u.ctl.lcr.b7 { ThrFrame(u, s.val); }
  }

  // ---- after every run ----

  predicate Tracks(start: Lines, steps: seq<Step>, u: Uart) {
    && Inv(u) && u.modem.poll >= 0
    && CtlTracks(steps, u.ctl) && RxTracks(steps, u.rx) && MsrTracks(start, steps, u.modem.msr)
    && u.tx.pending == AsksForMore(steps)
  }

  lemma CtlGrows(steps: seq<Step>, c: Ctl, c': Ctl)
    requires |steps| > 0 && CtlTracks(Before(steps), c) && CtlFollows(c, c', Last(steps))
    ensures CtlTracks(steps, c')
  {}

  /** The kinds of access the receiver tells apart. */
  datatype Kind = Incoming(c: Byte) | BreakIn | Clearing | Taking | StatusRead | Waiting | Else

  function KindOf(before: seq<Step>, s: Step): Kind {
    if s.Break? then BreakIn
    else if Arrives(before, s) then Incoming(Arrival(before, s))
    else if Clears(before, s) then Clearing
    else if Takes(before, s) then Taking
    else if Reads(s, 5) then StatusRead
    else if s.Timeout? then Waiting
    else Else
  }

  function RxOn(fifos: bool, rx: Rx, k: Kind): Rx {
    match k
    case Incoming(c) => RxByte(fifos, rx, c)
    case BreakIn => Put(rx, ZERO).(rbr := ZERO, bi := true, dr := true)
    case Clearing => rx.(dr := false, bi := false, timeout := false, fifo := [])
    case Taking => RxRead(fifos, rx).0
    case StatusRead => rx.(bi := false, oe := false)
    case Waiting => if |rx.fifo| > 0 then rx.(timeout := true) else rx
    case Else => rx
  }

  lemma WriteKind(before: seq<Step>, s: Step, c: Ctl, rx: Rx)
    requires CtlTracks(before, c) && s.Write?
    ensures RxAfter(c, rx, s) == RxOn(Fifos(before), rx, KindOf(before, s))
  {
    assert Loopback(before) == c.mcr.loop && Dlab(before) == c.lcr.b7 && Fifos(before) == c.fcr.fe;
  }

  lemma KindDecides(before: seq<Step>, s: Step, c: Ctl, rx: Rx)
    requires CtlTracks(before, c)
    ensures RxAfter(c, rx, s) == RxOn(Fifos(before), rx, KindOf(before, s))
  {
    if s.Write? {
      WriteKind(before, s, c, rx);
    } else {
      assert Dlab(before) == c.lcr.b7 && Fifos(before) == c.fcr.fe;
    }
  }

  /** What the receiver holds, by kind of access. */
  lemma QueueUnfolds(steps: seq<Step>)
    requires |steps| > 0
    ensures var before, k := Before(steps), KindOf(Before(steps), Last(steps));
      var q := Queue(before);
      Queue(steps) ==
        if k.Clearing? then []
        else if k.BreakIn? || (k.Incoming? && Fifos(before)) then (if |q| < 16 then q + [if k.BreakIn? then ZERO else k.c] else q)
        else if k.Taking? && Fifos(before) && |q| > 0 then q[1..]
        else q
  {}

  lemma StatusUnfolds(steps: seq<Step>)
    requires |steps| > 0
    ensures var before, k := Before(steps), KindOf(Before(steps), Last(steps));
      && Unread(steps) == (k.BreakIn? || k.Incoming? || (!k.Clearing? && !k.Taking? && Unread(before)))
      && Held(steps) == (if k.BreakIn? then ZERO else if k.Incoming? && !Fifos(before) then k.c else Held(before))
      && Fifos(steps) == (if k.Clearing? then Last(steps).val.b0 else Fifos(before))
  {}

  lemma LostUnfolds(steps: seq<Step>)
    requires |steps| > 0
    ensures var before, k := Before(steps), KindOf(Before(steps), Last(steps));
      Lost(steps) == (
        || (if k.BreakIn? || (k.Incoming? && Fifos(before)) then |Queue(before)| == 16 else k.Incoming? && Unread(before))
        || (!k.StatusRead? && Lost(before)))
  {}

  lemma BreakUnfolds(steps: seq<Step>)
    requires |steps| > 0
    ensures var before, k := Before(steps), KindOf(Before(steps), Last(steps));
      && Broken(steps) == (
        k.BreakIn? || (
          && !k.Clearing? && !k.StatusRead? && (k.Taking? ==> Fifos(before) && |Queue(before)| > 1)
          && Broken(before)))
      && TimedOut(steps) == (
        || (k.Waiting? && Queue(before) != [])
        || (!k.Clearing? && !(k.Taking? && Fifos(before)) && TimedOut(before)))
  {}

  lemma RxGrows(steps: seq<Step>, rx: Rx)
    requires |steps| > 0 && RxTracks(Before(steps), rx) && RxOk(Fifos(Before(steps)), rx)
    ensures RxTracks(steps, RxOn(Fifos(Before(steps)), rx, KindOf(Before(steps), Last(steps))))
  {
    QueueUnfolds(steps);
    StatusUnfolds(steps);
    LostUnfolds(steps);
    BreakUnfolds(steps);
  }

  lemma SampleBit(m: Msr, l: Lines, p: Pin)
    ensures Delta(SampleOf(m, l), p) == (Delta(m, p) || Level(l, p) != Level(InputsOf(m), p))
  {}

  lemma SampleRing(m: Msr, l: Lines)
    requires m.teri ==> !m.ri
    ensures var m' := SampleOf(m, l);
      && m'.teri == (if l != InputsOf(m) then m.ri && !l.ri else m.teri)
      && (m'.teri ==> !m'.ri) && InputsOf(m') == l
  {}

  /** What a sample leaves in MSR. */
  lemma SampleTracks(start: Lines, before: seq<Step>, s: Step, m: Msr, p: Pin)
    requires Samples(before, s) && MsrTracks(start, before, m)
    ensures var m' := SampleOf(m, s.lines);
      && Delta(m', p) == (Changed(start, before, p) || ChangesNow(start, before, s, p))
      && m'.teri == RingsWith(start, before, s, Rang(start, before))
      && (m'.teri ==> !m'.ri) && InputsOf(m') == s.lines
  {
    SampleBit(m, s.lines, p);
    SampleRing(m, s.lines);
    assert Delta(m, p) == Changed(start, before, p);
  }

  function MsrAfter(start: Lines, before: seq<Step>, s: Step, m: Msr): Msr {
    if !Samples(before, s) then m
    else if SampleClears(before, s) then NoDelta(SampleOf(m, s.lines))
    else SampleOf(m, s.lines)
  }

  lemma MsrDecides(start: Lines, before: seq<Step>, s: Step, u: Uart)
    requires Inv(u) && u.modem.poll >= 0 && CtlTracks(before, u.ctl)
    ensures Next(u, s).modem.msr == MsrAfter(start, before, s, u.modem.msr)
  {
    MsrStep(u, s);
  }

  lemma BitGrows(start: Lines, steps: seq<Step>, m: Msr, p: Pin)
    requires |steps| > 0 && MsrTracks(start, Before(steps), m)
    ensures Delta(MsrAfter(start, Before(steps), Last(steps), m), p) == Changed(start, steps, p)
  {
    var before, s := Before(steps), Last(steps);
    assert Delta(m, p) == Changed(start, before, p);
    if Samples(before, s) {
      SampleTracks(start, before, s, m, p);
    }
  }

  lemma RingGrows(start: Lines, steps: seq<Step>, m: Msr)
    requires |steps| > 0 && MsrTracks(start, Before(steps), m)
    ensures var m' := MsrAfter(start, Before(steps), Last(steps), m);
      InputsOf(m') == Seen(start, steps) && m'.teri == Rang(start, steps) && (m'.teri ==> !m'.ri)
  {
    if Samples(Before(steps), Last(steps)) {
      SampleTracks(start, Before(steps), Last(steps), m, Cts);
    }
  }

  lemma MsrGrows(start: Lines, steps: seq<Step>, m: Msr)
    requires |steps| > 0 && MsrTracks(start, Before(steps), m)
    ensures MsrTracks(start, steps, MsrAfter(start, Before(steps), Last(steps), m))
  {
    forall p ensures Delta(MsrAfter(start, Before(steps), Last(steps), m), p) == Changed(start, steps, p) {
      BitGrows(start, steps, m, p);
    }
    RingGrows(start, steps, m);
  }

  lemma NamesThrEmpty(start: Lines, steps: seq<Step>, u: Uart)
    requires Tracks(start, steps, u)
    ensures u.irq.id == Thri <==>
      Enabled(steps).b1 && AsksForMore(steps) && !WantsLine(steps) && !WantsTimeout(steps) && !WantsData(steps)
  {
    SourcesTrack(start, steps, u);
  }

  /** The sources pending are those the accesses call for. */
  lemma SourcesTrack(start: Lines, steps: seq<Step>, u: Uart)
    requires Tracks(start, steps, u)
    ensures forall s :: Pending(u, s) <==> Wants(start, steps, s)
  {
    RxSources(start, steps, u);
    assert Delta(u.modem.msr, Cts) == Changed(start, steps, Cts);
    assert Delta(u.modem.msr, Dsr) == Changed(start, steps, Dsr);
    assert Delta(u.modem.msr, Dcd) == Changed(start, steps, Dcd);
    assert Pending(u, ModemStatus) <==> Wants(start, steps, ModemStatus);
  }

  lemma RxSources(start: Lines, steps: seq<Step>, u: Uart)
    requires Tracks(start, steps, u)
    ensures Pending(u, LineStatus) <==> WantsLine(steps)
    ensures Pending(u, CharTimeout) <==> WantsTimeout(steps)
    ensures Pending(u, DataReady) <==> WantsData(steps)
  {}

  lemma PendingGrows(start: Lines, steps: seq<Step>, u: Uart)
    requires |steps| > 0 && Tracks(start, Before(steps), u)
    ensures Next(u, Last(steps)).tx.pending == AsksForMore(steps)
  {
    PendingStep(u, Last(steps));
    NamesThrEmpty(start, Before(steps), u);
  }

  lemma TracksGrows(start: Lines, steps: seq<Step>, u: Uart)
    requires |steps| > 0 && Tracks(start, Before(steps), u)
    ensures Tracks(start, steps, Next(u, Last(steps)))
  {
    var s := Last(steps);
    NextKeeps(u, s);
    CtlStep(u, s);
    CtlGrows(steps, u.ctl, Next(u, s).ctl);
    RxStep(u, s);
    KindDecides(Before(steps), s, u.ctl, u.rx);
    RxGrows(steps, u.rx);
    MsrStep(u, s);
    MsrDecides(start, Before(steps), s, u);
    MsrGrows(start, steps, u.modem.msr);
    PendingGrows(start, steps, u);
  }

  lemma ResetTracks(fcr: Fcr, itl: nat, lines: Lines)
    requires !fcr.fe
    ensures Tracks(lines, [], Reset(fcr, itl, lines))
  {
    ResetInv(fcr, itl, lines);
  }

  lemma {:induction false} RunTracks(fcr: Fcr, itl: nat, lines: Lines, steps: seq<Step>)
    requires !fcr.fe
    ensures Inv(Reset(fcr, itl, lines))
    ensures Tracks(lines, steps, After(Reset(fcr, itl, lines), steps))
    decreases |steps|
  {
    ResetTracks(fcr, itl, lines);
    if |steps| > 0 {
      RunTracks(fcr, itl, lines, Before(steps));
      TracksGrows(lines, steps, After(Reset(fcr, itl, lines), Before(steps)));
    } else {
      assert steps == [];
    }
  }

  /** From a reset with FCR clear, after every sequence of accesses, a read of a register other
      than IIR returns what the accesses call for. */
  lemma EveryReadReturns(fcr: Fcr, itl: nat, start: Lines, steps: seq<Step>, addr: nat, lines: Lines)
    requires !fcr.fe && addr % 8 != 2
    ensures Inv(Reset(fcr, itl, start))
    ensures ReadReg(After(Reset(fcr, itl, start), steps), addr, lines).1 == Returns(start, steps, addr % 8, lines)
  {
    RunTracks(fcr, itl, start, steps);
    ReadReturns(start, steps, After(Reset(fcr, itl, start), steps), addr, lines);
  }

  lemma ReadReturns(start: Lines, steps: seq<Step>, u: Uart, addr: nat, lines: Lines)
    requires Tracks(start, steps, u) && addr % 8 != 2
    ensures ReadReg(u, addr, lines).1 == Returns(start, steps, addr % 8, lines)
  {
    match addr % 8
    case 0 => DataReturns(start, steps, u);
    case 5 => LsrReturns(start, steps, u);
    case 6 => MsrReturns(start, steps, u, lines);
    case _ =>
  }

  lemma DataReturns(start: Lines, steps: seq<Step>, u: Uart)
    requires Tracks(start, steps, u)
    ensures ReadRbr(u).1 == Sent(steps)
  {}

  lemma LsrReturns(start: Lines, steps: seq<Step>, u: Uart)
    requires Tracks(start, steps, u)
    ensures ReadLsr(u).1 == LineStatusOf(steps)
  {}

  lemma MsrReturns(start: Lines, steps: seq<Step>, u: Uart, lines: Lines)
    requires Tracks(start, steps, u)
    ensures ReadMsr(u, lines).1 == ModemStatusOf(start, steps, lines)
  {
    if !Loopback(steps) {
      SampleTracks(start, steps, Read(6, lines), u.modem.msr, Cts);
      SampleTracks(start, steps, Read(6, lines), u.modem.msr, Dsr);
      SampleTracks(start, steps, Read(6, lines), u.modem.msr, Dcd);
      assert UpdateMsl(u, lines).modem.msr == SampleOf(u.modem.msr, lines);
    }
  }

  /** A read of IIR names the source of highest rank that the accesses call for, or none, and says
      whether the FIFOs are on; the interrupt line is raised exactly if there is such a source. */
  lemma IirReturns(fcr: Fcr, itl: nat, start: Lines, steps: seq<Step>)
    requires !fcr.fe
    ensures Inv(Reset(fcr, itl, start))
    ensures var u := After(Reset(fcr, itl, start), steps);
      var iir := ReadIir(u).1;
      && (u.irq.raised <==> exists s :: Wants(start, steps, s))
      && (!u.irq.raised ==> LowNibble(iir) == (false, false, false, true))
      && (forall s :: WantsFirst(start, steps, s) ==> LowNibble(iir) == Code(s))
      && !iir.b4 && !iir.b5 && iir.b6 == iir.b7 == Fifos(steps)
  {
    RunTracks(fcr, itl, start, steps);
    var u := After(Reset(fcr, itl, start), steps);
    SourcesTrack(start, steps, u);
    HighestFirst(u);
    forall s | WantsFirst(start, steps, s) ensures Highest(u, s) {}
  }

  // ---- bytes lost ----

  /** A byte that came in will never be read: there is no room for it, or it takes the place of
      one not yet read. */
  predicate Drops(before: seq<Step>, s: Step) {
    Arrives(before, s) && (if Fifos(before) then |Queue(before)| == 16 else Unread(before))
  }

  /** The guest lost a byte since it last read LSR. */
  predicate Dropped(steps: seq<Step>) {
    |steps| > 0 && (Drops(Before(steps), Last(steps)) || (!Reads(Last(steps), 5) && Dropped(Before(steps))))
  }

  lemma {:induction false} QueueIsShort(steps: seq<Step>)
    ensures |Queue(steps)| <= 16
    decreases |steps|
  {
    if |steps| > 0 { QueueIsShort(Before(steps)); }
  }

  /** An access reports a loss exactly if there is one, but for a break while the FIFOs are off:
      it overwrites the buffer register and is reported by the state of the FIFO. */
  lemma OverrunIffDropped(before: seq<Step>, s: Step)
    ensures (Overruns(before, s) <==> Drops(before, s)) <==>
      !(s.Break? && !Fifos(before) && (Unread(before) <==> |Queue(before)| < 16))
  {
    QueueIsShort(before);
  }

  /** So bit 1 of LSR is set exactly if a byte was lost since LSR was last read, if every break
      came while the FIFOs were on. */
  lemma {:induction false} OverrunBitIsDropped(steps: seq<Step>)
    requires forall i :: 0 <= i < |steps| && steps[i].Break? ==> Fifos(steps[..i])
    ensures LineStatusOf(steps).b1 <==> Dropped(steps)
    decreases |steps|
  {
    if |steps| > 0 {
      var before := Before(steps);
      forall i | 0 <= i < |before| && before[i].Break? ensures Fifos(before[..i]) {
        assert before[..i] == steps[..i] && before[i] == steps[i];
      }
      OverrunBitIsDropped(before);
      OverrunIffDropped(before, Last(steps));
      assert Last(steps).Break? ==> Fifos(before);
    }
  }

  /** A break while the FIFOs are off takes the place of an unread byte, and LSR does not say so. */
  lemma BreakHidesLoss(c: Byte)
    ensures Dropped([Receive(c), Break]) && !LineStatusOf([Receive(c), Break]).b1
  {
    var run := [Receive(c), Break];
    assert Before(run) == [Receive(c)] && Before([Receive(c)]) == [];
    assert Unread([Receive(c)]) && Queue([Receive(c)]) == [] && !Fifos([Receive(c)]);
    assert !Overruns([], Receive(c)) && !Lost([Receive(c)]);
    assert !Overruns([Receive(c)], Break);
  }
}
