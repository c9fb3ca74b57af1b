/** The asynchronous log writer (src/common/dbhandler.cpp, class LogDB): one producer fills
    a ring of slices, pool workers compress them and write them back.  A step is one atomic
    statement of the producer or of a worker; a schedule interleaves them freely. */
module LogProtocol {
  import opened BitOps

  type byte = x: nat | x < 256
  type Bytes = seq<byte>

  /** BUFFER_SLICE. */
  const N: nat := 4

  datatype SliceState = Free | ProcessReady | Processing | ProcessDone | Done

  /** BufferSlice: `idx` is inp_buffer_idx, `outSize` is out_buffer_size. */
  datatype Info = Info(state: SliceState, idx: nat, outSize: nat)

  /** The pool task on a slice; `pc` counts the statements it has executed. */
  datatype Job = NoJob | Compress(size: nat, pc: nat) | Write(size: nat, pc: nat)

  /** Where the producer is inside addData. */
  datatype Pc =
    | Idle
    | Waiting(rec: Bytes)          // testing whether the slice to fill is free
    | WaitCompress(rec: Bytes)     // woken up: checkCompress
    | WaitWriteback(rec: Bytes)    // then checkWriteback
    | Copying(rec: Bytes)          // the slice is free: memcpy
    | Publishing                   // hand the slice over when it is full
    | CheckingCompress
    | CheckingWriteback

  datatype Step = Begin(rec: Bytes) | Producer | Worker(slot: nat)

  /** Compression is any function with an inverse. */
  datatype Codec = Codec(compress: Bytes -> Bytes, decompress: Bytes -> Bytes)

  ghost predicate Lossless(z: Codec) {
    forall x: Bytes :: z.decompress(z.compress(x)) == x
  }

  datatype Db = Db(
    inp: seq<Bytes>,
    out: seq<Bytes>,
    info: seq<Info>,
    jobs: seq<Job>,
    processSlice: nat,
    compressSlice: nat,
    writebackSlice: nat,
    isWriting: bool,
    file: seq<Bytes>,
    pc: Pc)

  predicate Shape(cap: nat, d: Db) {
    && |d.inp| == N && |d.out| == N && |d.info| == N && |d.jobs| == N
    && d.processSlice < N && d.compressSlice < N && d.writebackSlice < N
    && (forall i :: 0 <= i < N ==> |d.inp[i]| == cap)
    && (forall i :: 0 <= i < N ==> JobInBounds(cap, d, i))
  }

  /** A task's size argument lies within the buffer it points to. */
  predicate JobInBounds(cap: nat, d: Db, i: nat)
    requires i < |d.jobs| && i < |d.out|
  {
    match d.jobs[i]
    case NoJob => true
    case Compress(size, _) => size <= cap
    case Write(size, pc) => pc == 0 ==> size <= |d.out[i]|
  }

  // ---- the steps ----

  function CheckCompress(cap: nat, d: Db): Db
    requires Shape(cap, d)
  {
    var i := d.compressSlice;
    if d.info[i].state == ProcessReady then
      d.(info := d.info[i := d.info[i].(state := Processing)],
         jobs := d.jobs[i := Compress(d.info[i].idx, 0)],
         compressSlice := (i + 1) % N)
    else d
  }

  function CheckWriteback(cap: nat, d: Db): Db
    requires Shape(cap, d)
  {
    var i := d.writebackSlice;
    if d.info[i].state == ProcessDone && !d.isWriting then
      d.(isWriting := true,
         info := d.info[i := d.info[i].(state := Done)],
         jobs := d.jobs[i := Write(d.info[i].outSize, 0)],
         writebackSlice := (i + 1) % N)
    else d
  }

  /** memcpy into the slice being filled, and the index update. */
  function Copy(cap: nat, d: Db, rec: Bytes): Db
    requires Shape(cap, d) && d.info[d.processSlice].idx + |rec| <= cap
  {
    var i := d.processSlice;
    var idx := d.info[i].idx;
    d.(inp := d.inp[i := d.inp[i][..idx] + rec + d.inp[i][idx + |rec|..]],
       info := d.info[i := d.info[i].(idx := idx + |rec|)],
       pc := Publishing)
  }

  function Publish(cap: nat, d: Db): Db
    requires Shape(cap, d)
  {
    var i := d.processSlice;
    if d.info[i].idx >= cap then
      d.(info := d.info[i := d.info[i].(state := ProcessReady)],
         processSlice := (i + 1) % N,
         pc := CheckingCompress)
    else d.(pc := CheckingCompress)
  }

  /** The next statement of a worker's lambda. */
  function Work(z: Codec, cap: nat, d: Db, i: nat): Db
    requires Shape(cap, d) && i < N
  {
    assert JobInBounds(cap, d, i);
    match d.jobs[i]
    case NoJob => d
    case Compress(size, n) =>
      if n == 0 then
        var frame := z.compress(d.inp[i][..size]);
        d.(out := d.out[i := frame],
           info := d.info[i := d.info[i].(outSize := |frame|)],
           jobs := d.jobs[i := Compress(size, 1)])
      else
        d.(info := d.info[i := d.info[i].(state := ProcessDone)], jobs := d.jobs[i := NoJob])
    case Write(size, n) =>
      if n == 0 then
        d.(file := d.file + [d.out[i][..size]], jobs := d.jobs[i := Write(size, 1)])
      else if n == 1 then
        d.(info := d.info[i := d.info[i].(idx := 0)], jobs := d.jobs[i := Write(size, 2)])
      else if n == 2 then
        d.(info := d.info[i := d.info[i].(outSize := 0)], jobs := d.jobs[i := Write(size, 3)])
      else if n == 3 then
        d.(isWriting := false, jobs := d.jobs[i := Write(size, 4)])
      else
        d.(info := d.info[i := d.info[i].(state := Free)], jobs := d.jobs[i := NoJob])
  }

  // ---- the ghost view: what was logged, and how far each stage has come ----

  /** `p`, `c` and `w` count the slices filled, compressions and writebacks dispatched. */
  datatype Log = Log(d: Db, added: Bytes, p: nat, c: nat, w: nat)

  function Prod(cap: nat, l: Log): Log
    requires Shape(cap, l.d)
    requires l.d.pc.Copying? ==> l.d.info[l.d.processSlice].idx + |l.d.pc.rec| <= cap
  {
    var d := l.d;
    match d.pc
    case Idle => l
    case Waiting(rec) =>
      if d.info[d.processSlice].state == Free then l.(d := d.(pc := Copying(rec)))
      else l.(d := d.(pc := WaitCompress(rec)))
    case WaitCompress(rec) => Dispatch(cap, l, WaitWriteback(rec))
    case WaitWriteback(rec) => WriteDispatch(cap, l, Waiting(rec))
    case Copying(rec) => l.(d := Copy(cap, d, rec), added := l.added + rec)
    case Publishing =>
      l.(d := Publish(cap, d), p := if d.info[d.processSlice].idx >= cap then l.p + 1 else l.p)
    case CheckingCompress => Dispatch(cap, l, CheckingWriteback)
    case CheckingWriteback => WriteDispatch(cap, l, Idle)
  }

  function Dispatch(cap: nat, l: Log, pc: Pc): Log
    requires Shape(cap, l.d)
  {
    var d := l.d;
    l.(d := CheckCompress(cap, d).(pc := pc),
       c := if d.info[d.compressSlice].state == ProcessReady then l.c + 1 else l.c)
  }

  function WriteDispatch(cap: nat, l: Log, pc: Pc): Log
    requires Shape(cap, l.d)
  {
    var d := l.d;
    l.(d := CheckWriteback(cap, d).(pc := pc),
       w := if d.info[d.writebackSlice].state == ProcessDone && !d.isWriting then l.w + 1 else l.w)
  }

  // ---- the invariant ----

  /** The slice of the last N full ones that a slot holds; negative if it never was full. */
  function Held(p: nat, i: nat): int {
    p - 1 - (p - 1 - i) % N
  }

  lemma HeldSlot(p: nat, i: nat)
    requires i < N
    ensures p - N <= Held(p, i) < p && Held(p, i) % N == i
    ensures Held(p + 1, i) == if i == p % N then p else Held(p, i)
  {
    HeldInRange(p, i);
    if i == p % N {
      HeldIsThe(p + 1, i, p);
    } else {
      HeldIsThe(p + 1, i, Held(p, i));
    }
  }

  lemma HeldInRange(p: nat, i: nat)
    requires i < N
    ensures p - N <= Held(p, i) < p && Held(p, i) % N == i
  {}

  /** Of N numbers in a row one falls on the slot. */
  lemma HeldIsThe(p: nat, i: nat, h: int)
    requires i < N && p - N <= h < p && h % N == i
    ensures Held(p, i) == h
  {}

  /** The slot of a recent slice holds just that slice. */
  lemma HeldOf(p: nat, k: nat)
    requires k < p <= k + N
    ensures k % N < N && Held(p, k % N) == k
  {}

  lemma NextSlot(k: nat)
    ensures (k + 1) % N == (k % N + 1) % N
  {}

  /** Where slice k starts in the log. */
  function At(cap: nat, k: nat): nat {
    if k == 0 then 0 else At(cap, k - 1) + cap
  }

  lemma {:induction false} AtMono(cap: nat, j: nat, k: nat)
    requires j < k
    ensures At(cap, j) + cap <= At(cap, k)
  {
    if j < k - 1 { AtMono(cap, j, k - 1); }
  }

  predicate IsMultiple(r: nat, n: int)
    requires 0 < r
    decreases n
  {
    n == 0 || (n >= r && IsMultiple(r, n - r))
  }

  lemma {:induction false} MultipleIsMod(r: nat, n: nat)
    requires 0 < r
    ensures IsMultiple(r, n) <==> n % r == 0
    decreases n
  {
    if n >= r {
      MultipleIsMod(r, n - r);
      var q, m := DivMod(n - r, r);
      assert n == r * (q + 1) + m;
      QuotientUnique(n, r, q + 1, m);
    } else {
      QuotientUnique(n, r, 0, n);
    }
  }

  /** The bytes of the log that slice k holds; empty when they are not all there yet. */
  function Slice(cap: nat, added: Bytes, k: int): Bytes {
    if 0 <= k && At(cap, k) + cap <= |added| then added[At(cap, k)..At(cap, k) + cap] else []
  }

  /** Filled, not yet compressed. */
  predicate ReadyOk(cap: nat, d: Db, i: nat, content: Bytes)
    requires Shape(cap, d) && i < N
  {
    d.info[i].state == ProcessReady && d.jobs[i] == NoJob && d.info[i].idx == cap && d.inp[i] == content
  }

  /** Being compressed, or compressed. */
  predicate BusyOk(z: Codec, cap: nat, d: Db, i: nat, content: Bytes)
    requires Shape(cap, d) && i < N
  {
    && d.inp[i] == content && d.info[i].idx == cap
    && (|| (d.info[i].state == Processing && d.jobs[i] == Compress(cap, 0))
        || (d.info[i].state == Processing && d.jobs[i] == Compress(cap, 1)
            && d.out[i] == z.compress(content) && d.info[i].outSize == |d.out[i]|)
        || (d.info[i].state == ProcessDone && d.jobs[i] == NoJob
            && d.out[i] == z.compress(content) && d.info[i].outSize == |d.out[i]|))
  }

  /** Handed to a writer, or free again. */
  predicate OldOk(z: Codec, cap: nat, d: Db, i: nat, g: int, content: Bytes)
    requires Shape(cap, d) && i < N
  {
    || (d.info[i].state == Done && 0 <= g && d.jobs[i].Write? && d.jobs[i].pc <= 4
        && (d.jobs[i].pc == 0 ==> d.out[i] == z.compress(content) && d.jobs[i].size == |d.out[i]|)
        && (d.jobs[i].pc >= 2 ==> d.info[i].idx == 0))
    || (d.info[i].state == Free && d.jobs[i] == NoJob && (i != d.processSlice ==> d.info[i].idx == 0))
  }

  predicate SlotOk(z: Codec, cap: nat, l: Log, i: nat)
    requires Shape(cap, l.d) && i < N
  {
    var g := Held(l.p, i);
    var content := Slice(cap, l.added, g);
    if g >= l.c then 0 <= g && ReadyOk(cap, l.d, i, content)
    else if g >= l.w then 0 <= g && BusyOk(z, cap, l.d, i, content)
    else OldOk(z, cap, l.d, i, g, content)
  }

  predicate Cursors(cap: nat, l: Log) {
    && l.w <= l.c <= l.p <= l.w + N
    && l.d.processSlice == l.p % N && l.d.compressSlice == l.c % N && l.d.writebackSlice == l.w % N
    && At(cap, l.p) <= |l.added|
  }

  /** The slice being filled holds the newest bytes. */
  predicate Filling(cap: nat, recSize: nat, l: Log)
    requires Shape(cap, l.d) && 0 < recSize && At(cap, l.p) <= |l.added|
  {
    var d, fill := l.d, |l.added| - At(cap, l.p);
    var i := d.processSlice;
    && IsMultiple(recSize, fill)
    && (if d.pc.Publishing? then d.info[i].state == Free && fill <= cap else fill < cap)
    && (d.pc.Copying? ==> d.info[i].state == Free)
    && (if d.info[i].state == Free then d.info[i].idx == fill && fill <= cap && d.inp[i][..fill] == l.added[At(cap, l.p)..]
        else fill == 0)
    && (d.pc.Waiting? || d.pc.WaitCompress? || d.pc.WaitWriteback? || d.pc.Copying? ==> |d.pc.rec| == recSize)
  }

  /** A worker between its file write and the release of is_writing works on the slice
      dispatched last; nobody else does. */
  predicate Writers(cap: nat, l: Log)
    requires Shape(cap, l.d)
  {
    && (forall i :: 0 <= i < N && l.d.jobs[i].Write? && l.d.jobs[i].pc <= 3 ==> l.d.isWriting && 0 < l.w && i == (l.w - 1) % N)
    && (l.d.isWriting ==> 0 < l.w && l.d.jobs[(l.w - 1) % N].Write? && l.d.jobs[(l.w - 1) % N].pc <= 3)
  }

  /** Slices whose frame is in the file. */
  function Written(cap: nat, l: Log): int
    requires Shape(cap, l.d)
  {
    if l.d.isWriting && 0 < l.w && l.d.jobs[(l.w - 1) % N].Write? && l.d.jobs[(l.w - 1) % N].pc == 0 then l.w - 1 else l.w
  }

  /** The file holds the frames of the first slices, in order. */
  predicate FileOk(z: Codec, cap: nat, l: Log)
    requires Shape(cap, l.d)
  {
    |l.d.file| == Written(cap, l) && forall k :: 0 <= k < |l.d.file| ==> l.d.file[k] == z.compress(Slice(cap, l.added, k))
  }

  predicate Inv(z: Codec, cap: nat, recSize: nat, l: Log) {
    && 0 < recSize && 0 < cap && IsMultiple(recSize, cap)
    && Shape(cap, l.d)
    && Cursors(cap, l)
    && (forall i :: 0 <= i < N ==> SlotOk(z, cap, l, i))
    && Filling(cap, recSize, l)
    && Writers(cap, l)
    && FileOk(z, cap, l)
  }

  // ---- every step keeps it ----

  /** Bytes added later do not change the slices already full. */
  lemma SliceStable(cap: nat, added: Bytes, more: Bytes, p: nat, k: int)
    requires At(cap, p) <= |added| && k < p
    ensures Slice(cap, added + more, k) == Slice(cap, added, k)
  {
    if 0 <= k {
      AtMono(cap, k, p);
    }
  }

  /** What a worker's statement leaves alone. */
  lemma WorkFrame(z: Codec, cap: nat, d: Db, i: nat)
    requires Shape(cap, d) && i < N
    ensures var d' := Work(z, cap, d, i);
      && Shape(cap, d')
      && d'.pc == d.pc && d'.inp == d.inp
      && d'.processSlice == d.processSlice && d'.compressSlice == d.compressSlice && d'.writebackSlice == d.writebackSlice
      && (forall j :: 0 <= j < N && j != i ==> d'.info[j] == d.info[j] && d'.jobs[j] == d.jobs[j] && d'.out[j] == d.out[j])
  {
    var d' := Work(z, cap, d, i);
    assert JobInBounds(cap, d, i);
    forall j | 0 <= j < N ensures JobInBounds(cap, d', j) {
      assert JobInBounds(cap, d, j);
    }
  }

  lemma WorkKeeps(z: Codec, cap: nat, recSize: nat, l: Log, i: nat)
    requires Inv(z, cap, recSize, l) && i < N
    ensures Inv(z, cap, recSize, l.(d := Work(z, cap, l.d, i)))
  {
    var l' := l.(d := Work(z, cap, l.d, i));
    WorkFrame(z, cap, l.d, i);
    assert SlotOk(z, cap, l, i);
    WorkSlot(z, cap, l, i);
    forall j | 0 <= j < N ensures SlotOk(z, cap, l', j) {
      assert SlotOk(z, cap, l, j);
    }
    HeldSlot(l.p, i);
    WorkFill(z, cap, recSize, l, i);
    WorkFile(z, cap, l, i);
  }

  lemma WorkSlot(z: Codec, cap: nat, l: Log, i: nat)
    requires Shape(cap, l.d) && i < N && SlotOk(z, cap, l, i)
    requires Shape(cap, Work(z, cap, l.d, i))
    ensures SlotOk(z, cap, l.(d := Work(z, cap, l.d, i)), i)
  {
    var d, d' := l.d, Work(z, cap, l.d, i);
    match d.jobs[i]
    case NoJob =>
    case Compress(size, n) =>
      assert d.inp[i][..cap] == d.inp[i];
      assert d'.inp[i] == d.inp[i];
    case Write(size, n) =>
      assert d'.jobs[i] == NoJob || d'.jobs[i] == Write(size, n + 1);
  }

  lemma WorkFill(z: Codec, cap: nat, recSize: nat, l: Log, i: nat)
    requires Shape(cap, l.d) && i < N && SlotOk(z, cap, l, i) && 0 < recSize
    requires Cursors(cap, l) && Filling(cap, recSize, l)
    requires Shape(cap, Work(z, cap, l.d, i))
    ensures Filling(cap, recSize, l.(d := Work(z, cap, l.d, i)))
  {
    HeldSlot(l.p, i);
    if i == l.d.processSlice && l.d.jobs[i] != NoJob {
      assert l.d.info[i].state != Free;
    }
  }

  lemma WorkFile(z: Codec, cap: nat, l: Log, i: nat)
    requires Shape(cap, l.d) && i < N && SlotOk(z, cap, l, i)
    requires Cursors(cap, l) && Writers(cap, l) && FileOk(z, cap, l)
    requires Shape(cap, Work(z, cap, l.d, i))
    ensures var l' := l.(d := Work(z, cap, l.d, i)); Writers(cap, l') && FileOk(z, cap, l')
  {
    var l' := l.(d := Work(z, cap, l.d, i));
    WorkFrame(z, cap, l.d, i);
    HeldSlot(l.p, i);
    if l.d.jobs[i].Write? && l.d.jobs[i].pc == 0 {
      assert i == (l.w - 1) % N;
      LastWrite(z, cap, l, i);
      assert l.d.out[i][..|l.d.out[i]|] == l.d.out[i];
    }
  }

  /** The task that has not yet written holds the frame of the slice dispatched last. */
  lemma LastWrite(z: Codec, cap: nat, l: Log, i: nat)
    requires Shape(cap, l.d) && i < N && SlotOk(z, cap, l, i) && Cursors(cap, l)
    requires 0 < l.w && i == (l.w - 1) % N && l.d.jobs[i].Write? && l.d.jobs[i].pc == 0
    ensures Held(l.p, i) == l.w - 1
    ensures l.d.out[i] == z.compress(Slice(cap, l.added, l.w - 1)) && l.d.jobs[i].size == |l.d.out[i]|
  {
    HeldSlot(l.p, i);
    if l.p <= l.w - 1 + N { HeldOf(l.p, l.w - 1); }
  }

  predicate CarriesRecord(recSize: nat, pc: Pc) {
    pc.Idle? || pc.CheckingCompress? || pc.CheckingWriteback?
    || ((pc.Waiting? || pc.WaitCompress? || pc.WaitWriteback?) && |pc.rec| == recSize)
  }

  lemma BeginKeeps(z: Codec, cap: nat, recSize: nat, l: Log, rec: Bytes)
    requires Inv(z, cap, recSize, l) && l.d.pc.Idle? && |rec| == recSize
    ensures Inv(z, cap, recSize, l.(d := l.d.(pc := Waiting(rec))))
  {
    PcKeeps(z, cap, recSize, l, Waiting(rec));
  }

  /** Moving the producer on changes nothing else. */
  lemma PcKeeps(z: Codec, cap: nat, recSize: nat, l: Log, pc: Pc)
    requires Inv(z, cap, recSize, l) && !l.d.pc.Publishing?
    requires CarriesRecord(recSize, pc) || (pc.Copying? && |pc.rec| == recSize && l.d.info[l.d.processSlice].state == Free)
    ensures Inv(z, cap, recSize, l.(d := l.d.(pc := pc)))
  {
    var l' := l.(d := l.d.(pc := pc));
    forall i | 0 <= i < N ensures JobInBounds(cap, l'.d, i) {
      assert JobInBounds(cap, l.d, i);
    }
    forall i | 0 <= i < N ensures SlotOk(z, cap, l', i) {
      assert SlotOk(z, cap, l, i);
    }
  }

  /** The slot a cursor points at, when the state says there is something for it. */
  lemma ReadySlot(z: Codec, cap: nat, l: Log)
    requires Shape(cap, l.d) && Cursors(cap, l) && SlotOk(z, cap, l, l.d.compressSlice)
    requires l.d.info[l.d.compressSlice].state == ProcessReady
    ensures l.c < l.p && Held(l.p, l.d.compressSlice) == l.c
  {
    HeldSlot(l.p, l.d.compressSlice);
    if l.c < l.p { HeldOf(l.p, l.c); }
  }

  lemma DoneSlot(z: Codec, cap: nat, l: Log)
    requires Shape(cap, l.d) && Cursors(cap, l) && SlotOk(z, cap, l, l.d.writebackSlice)
    requires l.d.info[l.d.writebackSlice].state == ProcessDone
    ensures l.w < l.c && Held(l.p, l.d.writebackSlice) == l.w
  {
    HeldSlot(l.p, l.d.writebackSlice);
    if l.w < l.p { HeldOf(l.p, l.w); }
  }

  lemma DispatchKeeps(z: Codec, cap: nat, recSize: nat, l: Log, pc: Pc)
    requires Inv(z, cap, recSize, l) && !l.d.pc.Publishing? && CarriesRecord(recSize, pc)
    ensures Inv(z, cap, recSize, Dispatch(cap, l, pc))
  {
    var l' := Dispatch(cap, l, pc);
    var i := l.d.compressSlice;
    if l.d.info[i].state != ProcessReady {
      PcKeeps(z, cap, recSize, l, pc);
    } else {
      assert SlotOk(z, cap, l, i);
      ReadySlot(z, cap, l);
      DispatchSlots(z, cap, l, pc);
      DispatchRest(z, cap, recSize, l, pc);
    }
  }

  lemma DispatchSlots(z: Codec, cap: nat, l: Log, pc: Pc)
    requires Shape(cap, l.d) && Cursors(cap, l) && l.d.info[l.d.compressSlice].state == ProcessReady
    requires forall i :: 0 <= i < N ==> SlotOk(z, cap, l, i)
    requires l.c < l.p && Held(l.p, l.d.compressSlice) == l.c
    ensures var l' := Dispatch(cap, l, pc); Shape(cap, l'.d) && forall i :: 0 <= i < N ==> SlotOk(z, cap, l', i)
  {
    var l' := Dispatch(cap, l, pc);
    assert SlotOk(z, cap, l, l.d.compressSlice);
    forall j | 0 <= j < N ensures JobInBounds(cap, l'.d, j) {
      assert JobInBounds(cap, l.d, j);
    }
    forall j | 0 <= j < N ensures SlotOk(z, cap, l', j) {
      assert SlotOk(z, cap, l, j);
      HeldSlot(l.p, j);
    }
  }

  lemma DispatchRest(z: Codec, cap: nat, recSize: nat, l: Log, pc: Pc)
    requires Shape(cap, l.d) && Cursors(cap, l) && 0 < recSize && Filling(cap, recSize, l)
    requires Writers(cap, l) && FileOk(z, cap, l)
    requires !l.d.pc.Publishing? && CarriesRecord(recSize, pc)
    requires l.d.info[l.d.compressSlice].state == ProcessReady && l.d.jobs[l.d.compressSlice] == NoJob && l.c < l.p
    requires Shape(cap, Dispatch(cap, l, pc).d)
    ensures var l' := Dispatch(cap, l, pc);
      Cursors(cap, l') && Filling(cap, recSize, l') && Writers(cap, l') && FileOk(z, cap, l')
  {
    var l' := Dispatch(cap, l, pc);
    NextSlot(l.c);
    assert Filling(cap, recSize, l');
    DispatchFile(z, cap, l, pc);
  }

  lemma DispatchFile(z: Codec, cap: nat, l: Log, pc: Pc)
    requires Shape(cap, l.d) && Writers(cap, l) && FileOk(z, cap, l)
    requires l.d.jobs[l.d.compressSlice] == NoJob
    requires Shape(cap, Dispatch(cap, l, pc).d)
    ensures var l' := Dispatch(cap, l, pc); Writers(cap, l') && FileOk(z, cap, l')
  {
    var l' := Dispatch(cap, l, pc);
    forall i | 0 <= i < N && l'.d.jobs[i].Write? ensures l'.d.jobs[i] == l.d.jobs[i] {}
    assert Written(cap, l') == Written(cap, l);
  }

  lemma WriteDispatchKeeps(z: Codec, cap: nat, recSize: nat, l: Log, pc: Pc)
    requires Inv(z, cap, recSize, l) && !l.d.pc.Publishing? && CarriesRecord(recSize, pc)
    ensures Inv(z, cap, recSize, WriteDispatch(cap, l, pc))
  {
    var l' := WriteDispatch(cap, l, pc);
    var i := l.d.writebackSlice;
    if l.d.info[i].state != ProcessDone || l.d.isWriting {
      PcKeeps(z, cap, recSize, l, pc);
    } else {
      assert SlotOk(z, cap, l, i);
      DoneSlot(z, cap, l);
      WriteDispatchSlots(z, cap, l, pc);
      WriteDispatchRest(z, cap, recSize, l, pc);
    }
  }

  lemma WriteDispatchSlots(z: Codec, cap: nat, l: Log, pc: Pc)
    requires Shape(cap, l.d) && Cursors(cap, l) && l.d.info[l.d.writebackSlice].state == ProcessDone && !l.d.isWriting
    requires forall i :: 0 <= i < N ==> SlotOk(z, cap, l, i)
    requires l.w < l.c && Held(l.p, l.d.writebackSlice) == l.w
    ensures var l' := WriteDispatch(cap, l, pc); Shape(cap, l'.d) && forall i :: 0 <= i < N ==> SlotOk(z, cap, l', i)
  {
    var l' := WriteDispatch(cap, l, pc);
    assert SlotOk(z, cap, l, l.d.writebackSlice);
    forall j | 0 <= j < N ensures JobInBounds(cap, l'.d, j) {
      assert JobInBounds(cap, l.d, j);
    }
    forall j | 0 <= j < N ensures SlotOk(z, cap, l', j) {
      assert SlotOk(z, cap, l, j);
      HeldSlot(l.p, j);
    }
  }

  lemma WriteDispatchRest(z: Codec, cap: nat, recSize: nat, l: Log, pc: Pc)
    requires Shape(cap, l.d) && Cursors(cap, l) && 0 < recSize && Filling(cap, recSize, l)
    requires Writers(cap, l) && FileOk(z, cap, l)
    requires !l.d.pc.Publishing? && CarriesRecord(recSize, pc)
    requires l.d.info[l.d.writebackSlice].state == ProcessDone && !l.d.isWriting && l.w < l.c
    requires Shape(cap, WriteDispatch(cap, l, pc).d)
    ensures var l' := WriteDispatch(cap, l, pc);
      Cursors(cap, l') && Filling(cap, recSize, l') && Writers(cap, l') && FileOk(z, cap, l')
  {
    var l' := WriteDispatch(cap, l, pc);
    NextSlot(l.w);
    assert Filling(cap, recSize, l');
    WriteDispatchFile(z, cap, l, pc);
  }

  lemma WriteDispatchFile(z: Codec, cap: nat, l: Log, pc: Pc)
    requires Shape(cap, l.d) && Writers(cap, l) && FileOk(z, cap, l)
    requires l.d.writebackSlice == l.w % N
    requires l.d.info[l.d.writebackSlice].state == ProcessDone && !l.d.isWriting
    requires Shape(cap, WriteDispatch(cap, l, pc).d)
    ensures var l' := WriteDispatch(cap, l, pc); Writers(cap, l') && FileOk(z, cap, l')
  {
    var l' := WriteDispatch(cap, l, pc);
    forall i | 0 <= i < N && i != l.d.writebackSlice ensures l'.d.jobs[i] == l.d.jobs[i] {}
    assert l'.w - 1 == l.w;
    assert Written(cap, l') == Written(cap, l);
  }

  lemma {:induction false} RoomForRecord(fill: nat, r: nat, cap: nat)
    requires 0 < r && IsMultiple(r, fill) && IsMultiple(r, cap) && fill < cap
    ensures fill + r <= cap && IsMultiple(r, fill + r)
  {
    if fill > 0 { RoomForRecord(fill - r, r, cap - r); }
  }

  lemma CopyKeeps(z: Codec, cap: nat, recSize: nat, l: Log)
    requires Inv(z, cap, recSize, l) && l.d.pc.Copying?
    ensures l.d.info[l.d.processSlice].idx + |l.d.pc.rec| <= cap
    ensures Inv(z, cap, recSize, Prod(cap, l))
  {
    var d, i, rec := l.d, l.d.processSlice, l.d.pc.rec;
    var fill := |l.added| - At(cap, l.p);
    RoomForRecord(fill, recSize, cap);
    var l' := Prod(cap, l);
    assert d.inp[i][..fill] + rec == l'.d.inp[i][..fill + recSize];
    assert l'.added[At(cap, l.p)..] == l.added[At(cap, l.p)..] + rec;
    HeldSlot(l.p, i);
    forall j | 0 <= j < N ensures JobInBounds(cap, l'.d, j) {
      assert JobInBounds(cap, d, j);
    }
    forall j | 0 <= j < N ensures SlotOk(z, cap, l', j) {
      assert SlotOk(z, cap, l, j);
      HeldSlot(l.p, j);
      SliceStable(cap, l.added, rec, l.p, Held(l.p, j));
    }
    forall k | 0 <= k < |d.file| ensures Slice(cap, l'.added, k) == Slice(cap, l.added, k) {
      SliceStable(cap, l.added, rec, l.p, k);
    }
  }

  lemma PublishKeeps(z: Codec, cap: nat, recSize: nat, l: Log)
    requires Inv(z, cap, recSize, l) && l.d.pc.Publishing?
    ensures Inv(z, cap, recSize, Prod(cap, l))
  {
    var l' := Prod(cap, l);
    assert SlotOk(z, cap, l, l.d.processSlice);
    HeldSlot(l.p, l.d.processSlice);
    forall j | 0 <= j < N ensures JobInBounds(cap, l'.d, j) {
      assert JobInBounds(cap, l.d, j);
    }
    forall j | 0 <= j < N ensures SlotOk(z, cap, l', j) {
      PublishSlot(z, cap, recSize, l, j);
    }
    PublishRest(z, cap, recSize, l);
  }

  lemma PublishSlot(z: Codec, cap: nat, recSize: nat, l: Log, j: nat)
    requires Inv(z, cap, recSize, l) && l.d.pc.Publishing? && j < N
    requires Shape(cap, Prod(cap, l).d)
    ensures SlotOk(z, cap, Prod(cap, l), j)
  {
    var d, i := l.d, l.d.processSlice;
    assert SlotOk(z, cap, l, j);
    HeldSlot(l.p, j);
    HeldSlot(l.p, i);
    if d.info[i].idx >= cap && j == i {
      assert d.inp[i][..cap] == d.inp[i];
      assert l.added[At(cap, l.p)..] == Slice(cap, l.added, l.p);
    }
  }

  lemma PublishRest(z: Codec, cap: nat, recSize: nat, l: Log)
    requires Shape(cap, l.d) && Cursors(cap, l) && 0 < recSize && Filling(cap, recSize, l)
    requires 0 < cap && Writers(cap, l) && FileOk(z, cap, l) && l.d.pc.Publishing?
    requires SlotOk(z, cap, l, l.d.processSlice) && SlotOk(z, cap, l, (l.d.processSlice + 1) % N)
    requires Shape(cap, Prod(cap, l).d)
    ensures var l' := Prod(cap, l);
      Cursors(cap, l') && Filling(cap, recSize, l') && Writers(cap, l') && FileOk(z, cap, l')
  {
    var l' := Prod(cap, l);
    HeldSlot(l.p, l.d.processSlice);
    assert Written(cap, l') == Written(cap, l);
    assert Writers(cap, l') && FileOk(z, cap, l');
    PublishFill(z, cap, recSize, l);
  }

  lemma PublishFill(z: Codec, cap: nat, recSize: nat, l: Log)
    requires Shape(cap, l.d) && Cursors(cap, l) && 0 < recSize && Filling(cap, recSize, l) && l.d.pc.Publishing?
    requires SlotOk(z, cap, l, l.d.processSlice) && SlotOk(z, cap, l, (l.d.processSlice + 1) % N)
    requires Shape(cap, Prod(cap, l).d)
    requires 0 < cap
    ensures var l' := Prod(cap, l); Cursors(cap, l') && Filling(cap, recSize, l')
  {
    if l.d.info[l.d.processSlice].idx >= cap {
      PublishRoom(z, cap, recSize, l);
      PublishFull(cap, recSize, l);
    }
  }

  /** The slot being filled is none of the last N full ones, and the next one is empty if free. */
  lemma PublishRoom(z: Codec, cap: nat, recSize: nat, l: Log)
    requires Shape(cap, l.d) && Cursors(cap, l) && 0 < recSize && Filling(cap, recSize, l) && l.d.pc.Publishing?
    requires SlotOk(z, cap, l, l.d.processSlice) && SlotOk(z, cap, l, (l.d.processSlice + 1) % N)
    ensures l.p < l.w + N
    ensures l.d.info[(l.d.processSlice + 1) % N].state == Free ==> l.d.info[(l.d.processSlice + 1) % N].idx == 0
  {
    HeldSlot(l.p, l.d.processSlice);
    assert l.d.info[l.d.processSlice].state == Free;
    assert Held(l.p, l.d.processSlice) < l.w;
  }

  lemma PublishFull(cap: nat, recSize: nat, l: Log)
    requires Shape(cap, l.d) && Cursors(cap, l) && 0 < recSize && Filling(cap, recSize, l) && l.d.pc.Publishing?
    requires l.p < l.w + N && 0 < cap && l.d.info[l.d.processSlice].idx >= cap
    requires l.d.info[(l.d.processSlice + 1) % N].state == Free ==> l.d.info[(l.d.processSlice + 1) % N].idx == 0
    requires Shape(cap, Prod(cap, l).d)
    ensures var l' := Prod(cap, l); Cursors(cap, l') && Filling(cap, recSize, l')
  {
    var l' := Prod(cap, l);
    NextSlot(l.p);
    assert l'.added[At(cap, l'.p)..] == [];
    assert (l.d.processSlice + 1) % N != l.d.processSlice;
  }

  lemma ProducerKeeps(z: Codec, cap: nat, recSize: nat, l: Log)
    requires Inv(z, cap, recSize, l)
    ensures l.d.pc.Copying? ==> l.d.info[l.d.processSlice].idx + |l.d.pc.rec| <= cap
    ensures Inv(z, cap, recSize, Prod(cap, l))
  {
    match l.d.pc
    case Idle =>
    case Waiting(rec) =>
      if l.d.info[l.d.processSlice].state == Free { PcKeeps(z, cap, recSize, l, Copying(rec)); }
      else { PcKeeps(z, cap, recSize, l, WaitCompress(rec)); }
    case WaitCompress(rec) => DispatchKeeps(z, cap, recSize, l, WaitWriteback(rec));
    case WaitWriteback(rec) => WriteDispatchKeeps(z, cap, recSize, l, Waiting(rec));
    case Copying(rec) => CopyKeeps(z, cap, recSize, l);
    case Publishing => PublishKeeps(z, cap, recSize, l);
    case CheckingCompress => DispatchKeeps(z, cap, recSize, l, CheckingWriteback);
    case CheckingWriteback => WriteDispatchKeeps(z, cap, recSize, l, Idle);
  }

  // ---- runs ----

  /** The log before anything was added. */
  function Initial(cap: nat): Log {
    Log(Db(seq(N, _ => seq(cap, _ => 0)), seq(N, _ => []), seq(N, _ => Info(Free, 0, 0)), seq(N, _ => NoJob),
           0, 0, 0, false, [], Idle), [], 0, 0, 0)
  }

  lemma InitialInv(z: Codec, cap: nat, recSize: nat)
    requires 0 < recSize && 0 < cap && IsMultiple(recSize, cap)
    ensures Inv(z, cap, recSize, Initial(cap))
  {
    var l := Initial(cap);
    forall i | 0 <= i < N ensures SlotOk(z, cap, l, i) && JobInBounds(cap, l.d, i) {
      HeldSlot(0, i);
    }
  }

  /** A schedule calls addData only when the previous call has returned. */
  predicate Enabled(recSize: nat, l: Log, s: Step) {
    match s
    case Begin(rec) => l.d.pc.Idle? && |rec| == recSize
    case Producer => true
    case Worker(i) => i < N
  }

  function Next(z: Codec, cap: nat, recSize: nat, l: Log, s: Step): Log
    requires Inv(z, cap, recSize, l) && Enabled(recSize, l, s)
  {
    match s
    case Begin(rec) => l.(d := l.d.(pc := Waiting(rec)))
    case Producer =>
      ProducerKeeps(z, cap, recSize, l);
      Prod(cap, l)
    case Worker(i) => l.(d := Work(z, cap, l.d, i))
  }

  lemma NextKeeps(z: Codec, cap: nat, recSize: nat, l: Log, s: Step)
    requires Inv(z, cap, recSize, l) && Enabled(recSize, l, s)
    ensures Inv(z, cap, recSize, Next(z, cap, recSize, l, s))
  {
    match s
    case Begin(rec) => BeginKeeps(z, cap, recSize, l, rec);
    case Producer => ProducerKeeps(z, cap, recSize, l);
    case Worker(i) => WorkKeeps(z, cap, recSize, l, i);
  }

  /** The state after a schedule; steps that are not enabled do nothing. */
  function After(z: Codec, cap: nat, recSize: nat, l: Log, steps: seq<Step>): (r: Log)
    requires Inv(z, cap, recSize, l)
    ensures Inv(z, cap, recSize, r)
  {
    if |steps| == 0 then l
    else
      var m := After(z, cap, recSize, l, steps[..|steps| - 1]);
      var s := steps[|steps| - 1];
      if Enabled(recSize, m, s) then
        NextKeeps(z, cap, recSize, m, s);
        Next(z, cap, recSize, m, s)
      else m
  }

  /** The records handed to addData by the calls a schedule makes. */
  function Logged(z: Codec, cap: nat, recSize: nat, l: Log, steps: seq<Step>): Bytes
    requires Inv(z, cap, recSize, l)
  {
    if |steps| == 0 then []
    else
      var m := After(z, cap, recSize, l, steps[..|steps| - 1]);
      var s := steps[|steps| - 1];
      Logged(z, cap, recSize, l, steps[..|steps| - 1])
        + (if s.Begin? && Enabled(recSize, m, s) then s.rec else [])
  }

  /** The record a call has not copied yet. */
  function InHand(pc: Pc): Bytes {
    if pc.Waiting? || pc.WaitCompress? || pc.WaitWriteback? || pc.Copying? then pc.rec else []
  }

  /** Entry is lossless: what is in the log is what addData was given, in order, less the
      record of a call still waiting. */
  lemma {:induction false} NothingLostOnEntry(z: Codec, cap: nat, recSize: nat, steps: seq<Step>)
    requires 0 < recSize && 0 < cap && IsMultiple(recSize, cap)
    requires Inv(z, cap, recSize, Initial(cap))
    ensures var l := After(z, cap, recSize, Initial(cap), steps);
      l.added + InHand(l.d.pc) == Logged(z, cap, recSize, Initial(cap), steps)
  {
    if |steps| > 0 {
      NothingLostOnEntry(z, cap, recSize, steps[..|steps| - 1]);
      var m := After(z, cap, recSize, Initial(cap), steps[..|steps| - 1]);
      var s := steps[|steps| - 1];
      if Enabled(recSize, m, s) {
        EntryStep(z, cap, recSize, m, s);
      }
    }
  }

  lemma EntryStep(z: Codec, cap: nat, recSize: nat, m: Log, s: Step)
    requires Inv(z, cap, recSize, m) && Enabled(recSize, m, s)
    ensures var l := Next(z, cap, recSize, m, s);
      l.added + InHand(l.d.pc) == m.added + InHand(m.d.pc) + (if s.Begin? then s.rec else [])
  {
    var l := Next(z, cap, recSize, m, s);
    match s
    case Begin(rec) =>
    case Worker(i) => WorkFrame(z, cap, m.d, i);
    case Producer =>
      ProducerKeeps(z, cap, recSize, m);
      assert m.added + InHand(m.d.pc) + [] == m.added + InHand(m.d.pc);
  }

  /** What the file says: the frames decompressed and concatenated. */
  function Decoded(z: Codec, file: seq<Bytes>): Bytes {
    if |file| == 0 then [] else Decoded(z, file[..|file| - 1]) + z.decompress(file[|file| - 1])
  }

  lemma TakeMore(s: Bytes, a: nat, b: nat)
    requires a <= b <= |s|
    ensures s[..a] + s[a..b] == s[..b]
  {}

  /** Slice k, or what there is of it. */
  function Part(cap: nat, added: Bytes, k: nat): Bytes {
    if At(cap, k) + cap <= |added| then added[At(cap, k)..At(cap, k) + cap]
    else if At(cap, k) <= |added| then added[At(cap, k)..]
    else []
  }

  function Reach(cap: nat, added: Bytes, n: nat): nat {
    if At(cap, n) <= |added| then At(cap, n) else |added|
  }

  /** Frames of consecutive parts decode to the bytes they cover. */
  lemma {:induction false} DecodedParts(z: Codec, cap: nat, file: seq<Bytes>, added: Bytes)
    requires Lossless(z)
    requires forall k :: 0 <= k < |file| ==> file[k] == z.compress(Part(cap, added, k))
    ensures Decoded(z, file) == added[..Reach(cap, added, |file|)]
  {
    if |file| > 0 {
      var n := |file| - 1;
      var front := file[..n];
      assert forall k :: 0 <= k < n ==> front[k] == file[k];
      DecodedParts(z, cap, front, added);
      assert file[n] == z.compress(Part(cap, added, n));
      assert At(cap, n + 1) == At(cap, n) + cap;
      TakeMore(added, Reach(cap, added, n), Reach(cap, added, n + 1));
    }
  }

  /** In every state the invariant describes, the file decodes to a prefix of the log. */
  lemma FileIsPrefix(z: Codec, cap: nat, recSize: nat, l: Log)
    requires Lossless(z) && Inv(z, cap, recSize, l)
    ensures |l.d.file| <= l.p && At(cap, |l.d.file|) <= |l.added|
    ensures Decoded(z, l.d.file) == l.added[..At(cap, |l.d.file|)]
  {
    var f := |l.d.file|;
    if f < l.p { AtMono(cap, f, l.p); }
    forall k | 0 <= k < f ensures l.d.file[k] == z.compress(Part(cap, l.added, k)) {
      if k < f { AtMono(cap, k, f); }
      assert Slice(cap, l.added, k) == Part(cap, l.added, k);
    }
    DecodedParts(z, cap, l.d.file, l.added);
  }

  /** Safety over all interleavings: after any schedule, the file decodes to a prefix of
      the records passed to addData, in order. */
  lemma EveryRunIsSafe(z: Codec, cap: nat, recSize: nat, steps: seq<Step>)
    requires 0 < recSize && 0 < cap && IsMultiple(recSize, cap) && Lossless(z)
    ensures Inv(z, cap, recSize, Initial(cap))
    ensures Decoded(z, After(z, cap, recSize, Initial(cap), steps).d.file) <= Logged(z, cap, recSize, Initial(cap), steps)
  {
    InitialInv(z, cap, recSize);
    FileIsPrefix(z, cap, recSize, After(z, cap, recSize, Initial(cap), steps));
    NothingLostOnEntry(z, cap, recSize, steps);
  }

  // ---- record sizes ----

  /** SLICE_BUFFER_SIZE. */
  const SLICE_BUFFER_SIZE: nat := 1024 * 1024 * 32 / 4 + 1024

  /** Index of the slice being filled after n records of r bytes: a slice is handed over
      once its index has reached the capacity. */
  function IndexAfter(cap: nat, r: nat, n: nat): nat {
    if n == 0 then 0
    else
      var i := IndexAfter(cap, r, n - 1) + r;
      if i >= cap then 0 else i
  }

  lemma {:induction false} IndexIsMultiple(cap: nat, r: nat, n: nat)
    requires 0 < r && 0 < cap && IsMultiple(r, cap)
    ensures IsMultiple(r, IndexAfter(cap, r, n)) && IndexAfter(cap, r, n) < cap
  {
    if n > 0 {
      IndexIsMultiple(cap, r, n - 1);
      RoomForRecord(IndexAfter(cap, r, n - 1), r, cap);
    }
  }

  lemma {:induction false} IndexReaches(cap: nat, r: nat, n: nat)
    requires 0 < r && n * r < cap
    ensures IndexAfter(cap, r, n) == n * r
  {
    if n > 0 {
      assert n * r == (n - 1) * r + r;
      IndexReaches(cap, r, n - 1);
    }
  }

  /** Every copy of a record stays within its slice exactly when the record size divides
      the slice size. */
  lemma CopiesFit(cap: nat, r: nat)
    requires 0 < r && 0 < cap
    ensures (forall n: nat :: IndexAfter(cap, r, n) + r <= cap) <==> cap % r == 0
  {
    MultipleIsMod(r, cap);
    if cap % r == 0 {
      forall n: nat ensures IndexAfter(cap, r, n) + r <= cap {
        IndexIsMultiple(cap, r, n);
        RoomForRecord(IndexAfter(cap, r, n), r, cap);
      }
    } else {
      var n, m := DivMod(cap, r);
      IndexReaches(cap, r, n);
      assert IndexAfter(cap, r, n) + r > cap;
    }
  }

  /** The 24-byte branch records fit; the 34-byte instruction records do not. */
  lemma RecordSizesOfTheSimulator()
    ensures forall n: nat :: IndexAfter(SLICE_BUFFER_SIZE, 24, n) + 24 <= SLICE_BUFFER_SIZE
    ensures exists n: nat :: IndexAfter(SLICE_BUFFER_SIZE, 34, n) + 34 > SLICE_BUFFER_SIZE
  {
    CopiesFit(SLICE_BUFFER_SIZE, 24);
    CopiesFit(SLICE_BUFFER_SIZE, 34);
  }
}
