/** Once it runs, a waiting call of addData gets its slice (src/common/dbhandler.cpp, lines 68-152): letting the
    pool finish its tasks and the producer go twice round its loop frees it.  Whether the call is woken at all
    is the question of LogWait. */
module LogProgress {
  import opened LogProtocol

  /** Statements a task still has. */
  function Left(j: Job): nat {
    match j
    case NoJob => 0
    case Compress(_, n) => if n == 0 then 2 else 1
    case Write(_, n) => if n <= 4 then 5 - n else 1
  }

  /** What the workers do not change. */
  predicate SameProducer(l: Log, l': Log) {
    l'.p == l.p && l'.c == l.c && l'.w == l.w && l'.added == l.added && l'.d.pc == l.d.pc
  }

  /** The task on slice i runs to its end. */
  function Finish(z: Codec, cap: nat, recSize: nat, l: Log, i: nat): (r: Log)
    requires Inv(z, cap, recSize, l) && i < N
    ensures Inv(z, cap, recSize, r) && SameProducer(l, r) && r.d.jobs[i] == NoJob
    ensures forall j :: 0 <= j < N && j != i ==> r.d.jobs[j] == l.d.jobs[j]
    decreases Left(l.d.jobs[i])
  {
    if l.d.jobs[i] == NoJob then l
    else
      WorkKeeps(z, cap, recSize, l, i);
      WorkFrame(z, cap, l.d, i);
      WorkGoesOn(z, cap, l.d, i);
      Finish(z, cap, recSize, Next(z, cap, recSize, l, Worker(i)), i)
  }

  lemma WorkGoesOn(z: Codec, cap: nat, d: Db, i: nat)
    requires Shape(cap, d) && i < N && d.jobs[i] != NoJob
    requires Shape(cap, Work(z, cap, d, i))
    ensures Left(Work(z, cap, d, i).jobs[i]) < Left(d.jobs[i])
  {}

  /** All tasks do. */
  function FinishAll(z: Codec, cap: nat, recSize: nat, l: Log): (r: Log)
    requires Inv(z, cap, recSize, l)
    ensures Inv(z, cap, recSize, r) && SameProducer(l, r) && IsQuiet(r)
  {
    var l1 := Finish(z, cap, recSize, l, 0);
    var l2 := Finish(z, cap, recSize, l1, 1);
    var l3 := Finish(z, cap, recSize, l2, 2);
    Finish(z, cap, recSize, l3, 3)
  }

  predicate IsQuiet(l: Log) {
    |l.d.jobs| == N && forall i :: 0 <= i < N ==> l.d.jobs[i] == NoJob
  }

  predicate SliceIsFree(l: Log) {
    l.d.processSlice < |l.d.info| && l.d.info[l.d.processSlice].state == Free
  }

  /** Once round the loop in addData, after which the tasks finish. */
  function Round(z: Codec, cap: nat, recSize: nat, l: Log): (r: Log)
    requires Inv(z, cap, recSize, l)
    ensures Inv(z, cap, recSize, r) && IsQuiet(r)
  {
    ProducerKeeps(z, cap, recSize, l);
    var l1 := Next(z, cap, recSize, l, Producer);
    ProducerKeeps(z, cap, recSize, l1);
    var l2 := Next(z, cap, recSize, l1, Producer);
    ProducerKeeps(z, cap, recSize, l2);
    FinishAll(z, cap, recSize, Next(z, cap, recSize, l2, Producer))
  }

  // ---- with no task running ----

  lemma NobodyWrites(z: Codec, cap: nat, recSize: nat, l: Log)
    requires Inv(z, cap, recSize, l) && IsQuiet(l)
    ensures !l.d.isWriting
  {}

  /** A slice that is not free then holds the oldest part not yet written, and the ring is full. */
  lemma RingIsFull(z: Codec, cap: nat, recSize: nat, l: Log)
    requires Inv(z, cap, recSize, l) && IsQuiet(l) && !SliceIsFree(l)
    ensures l.p == l.w + N && l.d.processSlice == l.d.writebackSlice
    ensures l.d.info[l.d.writebackSlice].state == if l.c > l.w then ProcessDone else ProcessReady
  {
    assert SlotOk(z, cap, l, l.p % N);
    HeldSlot(l.p, l.p % N);
    OldestHeld(l.p);
    SameRest(l.w);
  }

  lemma OldestHeld(p: nat)
    ensures Held(p, p % N) == p - N
  {}

  lemma SameRest(w: nat)
    ensures (w + N) % N == w % N
  {}

  // ---- one round ----

  lemma TestFails(cap: nat, l: Log)
    requires Shape(cap, l.d) && l.d.pc.Waiting? && !SliceIsFree(l)
    ensures Prod(cap, l) == l.(d := l.d.(pc := WaitCompress(l.d.pc.rec)))
  {}

  /** The slot to write is compressed and the next one to compress is another. */
  lemma ChecksWrite(cap: nat, l: Log, l': Log)
    requires Shape(cap, l.d) && l.d.pc.WaitCompress? && !l.d.isWriting
    requires l.d.info[l.d.writebackSlice].state == ProcessDone
    requires l' == Prod(cap, l) && Shape(cap, l'.d)
    ensures var r := Prod(cap, l'); r.w == l.w + 1 && r.p == l.p && r.added == l.added && r.d.pc == Waiting(l.d.pc.rec)
  {}

  /** It is to be compressed itself. */
  lemma ChecksCompress(cap: nat, l: Log, l': Log)
    requires Shape(cap, l.d) && l.d.pc.WaitCompress? && l.d.compressSlice == l.d.writebackSlice
    requires l.d.info[l.d.writebackSlice].state == ProcessReady
    requires l' == Prod(cap, l) && Shape(cap, l'.d)
    ensures var r := Prod(cap, l');
      && r.w == l.w && r.c == l.c + 1 && r.p == l.p && r.added == l.added && r.d.pc == Waiting(l.d.pc.rec)
      && r.d.jobs[l.d.writebackSlice].Compress?
  {}

  /** What Prod asks. */
  predicate CanStep(cap: nat, l: Log) {
    Shape(cap, l.d) && (l.d.pc.Copying? ==> l.d.info[l.d.processSlice].idx + |l.d.pc.rec| <= cap)
  }

  lemma StepsAreProd(z: Codec, cap: nat, recSize: nat, l: Log)
    requires Inv(z, cap, recSize, l)
    ensures CanStep(cap, l) && Inv(z, cap, recSize, Prod(cap, l))
    ensures Next(z, cap, recSize, l, Producer) == Prod(cap, l)
  {
    ProducerKeeps(z, cap, recSize, l);
  }

  /** The three steps of a round. */
  lemma ThreeSteps(z: Codec, cap: nat, recSize: nat, l: Log) returns (l1: Log, l2: Log, l3: Log)
    requires Inv(z, cap, recSize, l)
    ensures CanStep(cap, l) && CanStep(cap, l1) && CanStep(cap, l2)
    ensures l1 == Prod(cap, l) && l2 == Prod(cap, l1) && l3 == Prod(cap, l2)
    ensures Inv(z, cap, recSize, l3) && Round(z, cap, recSize, l) == FinishAll(z, cap, recSize, l3)
  {
    StepsAreProd(z, cap, recSize, l);
    l1 := Next(z, cap, recSize, l, Producer);
    StepsAreProd(z, cap, recSize, l1);
    l2 := Next(z, cap, recSize, l1, Producer);
    StepsAreProd(z, cap, recSize, l2);
    l3 := Next(z, cap, recSize, l2, Producer);
  }

  /** With the oldest part compressed a round writes it back. */
  lemma RoundWrites(z: Codec, cap: nat, recSize: nat, l: Log)
    requires Inv(z, cap, recSize, l) && IsQuiet(l) && !SliceIsFree(l) && l.d.pc.Waiting? && l.c > l.w
    ensures var r := Round(z, cap, recSize, l);
      SliceIsFree(r) && r.d.pc == l.d.pc && r.added == l.added && r.p == l.p && r.w == l.w + 1
  {
    RingIsFull(z, cap, recSize, l);
    NobodyWrites(z, cap, recSize, l);
    var l1, l2, l3 := ThreeSteps(z, cap, recSize, l);
    TestFails(cap, l);
    ChecksWrite(cap, l1, l2);
    HasRoom(z, cap, recSize, FinishAll(z, cap, recSize, l3));
  }

  lemma HasRoom(z: Codec, cap: nat, recSize: nat, l: Log)
    requires Inv(z, cap, recSize, l) && IsQuiet(l) && l.p < l.w + N
    ensures SliceIsFree(l)
  {
    if !SliceIsFree(l) { RingIsFull(z, cap, recSize, l); }
  }

  /** With nothing compressed it compresses the oldest part. */
  lemma RoundCompresses(z: Codec, cap: nat, recSize: nat, l: Log)
    requires Inv(z, cap, recSize, l) && IsQuiet(l) && !SliceIsFree(l) && l.d.pc.Waiting? && l.c == l.w
    ensures var r := Round(z, cap, recSize, l);
      r.d.pc == l.d.pc && r.added == l.added && r.p == l.p && r.c == l.c + 1 && r.w == l.w && !SliceIsFree(r)
  {
    RingIsFull(z, cap, recSize, l);
    var l1, l2, l3 := ThreeSteps(z, cap, recSize, l);
    TestFails(cap, l);
    ChecksCompress(cap, l1, l2);
    StaysFull(z, cap, recSize, FinishAll(z, cap, recSize, l3));
  }

  lemma StaysFull(z: Codec, cap: nat, recSize: nat, l: Log)
    requires Inv(z, cap, recSize, l) && l.p == l.w + N
    ensures !SliceIsFree(l)
  {
    assert SlotOk(z, cap, l, l.p % N);
    HeldSlot(l.p, l.p % N);
    OldestHeld(l.p);
  }

  /** From every state in which a call waits: after the running tasks and at most two rounds its slice is free,
      nothing has been added meanwhile, and the call goes on to copy its record. */
  lemma WaitEnds(z: Codec, cap: nat, recSize: nat, l: Log)
    requires Inv(z, cap, recSize, l) && l.d.pc.Waiting?
    ensures var l0 := FinishAll(z, cap, recSize, l);
      var l1 := if SliceIsFree(l0) then l0 else Round(z, cap, recSize, l0);
      var l2 := if SliceIsFree(l1) then l1 else Round(z, cap, recSize, l1);
      && SliceIsFree(l2) && l2.added == l.added
      && Next(z, cap, recSize, l2, Producer).d.pc == Copying(l.d.pc.rec)
  {
    var l0 := FinishAll(z, cap, recSize, l);
    if !SliceIsFree(l0) {
      if l0.c > l0.w {
        RoundWrites(z, cap, recSize, l0);
      } else {
        RoundCompresses(z, cap, recSize, l0);
        RoundWrites(z, cap, recSize, Round(z, cap, recSize, l0));
      }
    }
  }
}
