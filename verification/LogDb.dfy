/** LogDB as an object (src/common/dbhandler.cpp, lines 76-198): its methods change the
    buffers, states and cursors in place, exactly as the steps of the protocol say. */
module LogDb {
  import opened LogProtocol

  class LogDB {
    const z: Codec
    const cap: nat                  // SLICE_BUFFER_SIZE
    const recSize: nat              // the size of one record
    var inp: seq<Bytes>             // inp_buffer
    var out: seq<Bytes>             // out_buffer
    var info: seq<Info>             // buffer_slice_info
    var jobs: seq<Job>              // the pool's tasks, by slice
    var processSlice: nat
    var compressSlice: nat
    var writebackSlice: nat
    var isWriting: bool
    var file: seq<Bytes>            // the frames written after the header
    var pc: Pc
    ghost var added: Bytes
    ghost var p: nat
    ghost var c: nat
    ghost var w: nat

    function State(): Db
      reads this
    {
      Db(inp, out, info, jobs, processSlice, compressSlice, writebackSlice, isWriting, file, pc)
    }

    ghost function View(): Log
      reads this
    {
      Log(State(), added, p, c, w)
    }

    ghost predicate Valid()
      reads this
    {
      Inv(z, cap, recSize, View())
    }

    constructor (z: Codec, cap: nat, recSize: nat)
      requires 0 < recSize && 0 < cap && IsMultiple(recSize, cap)
      ensures Valid() && View() == Initial(cap)
      ensures this.z == z && this.cap == cap && this.recSize == recSize
    {
      this.z, this.cap, this.recSize := z, cap, recSize;
      inp := seq(N, _ => seq(cap, _ => 0));
      out := seq(N, _ => []);
      info := seq(N, _ => Info(Free, 0, 0));
      jobs := seq(N, _ => NoJob);
      processSlice, compressSlice, writebackSlice := 0, 0, 0;
      isWriting, file, pc := false, [], Idle;
      added, p, c, w := [], 0, 0, 0;
      new;
      InitialInv(z, cap, recSize);
    }

    method CheckCompress(next: Pc)
      requires Shape(cap, State())
      modifies this
      ensures View() == old(Dispatch(cap, View(), next))
    {
      if info[compressSlice].state == ProcessReady {
        info := info[compressSlice := info[compressSlice].(state := Processing)];
        jobs := jobs[compressSlice := Compress(info[compressSlice].idx, 0)];
        compressSlice := (compressSlice + 1) % N;
        c := c + 1;
      }
      pc := next;
    }

    method CheckWriteback(next: Pc)
      requires Shape(cap, State())
      modifies this
      ensures View() == old(WriteDispatch(cap, View(), next))
    {
      if info[writebackSlice].state == ProcessDone && !isWriting {
        DispatchWrite();
      }
      pc := next;
    }

    method DispatchWrite()
      requires Shape(cap, State()) && info[writebackSlice].state == ProcessDone && !isWriting
      modifies this
      ensures View() == old(WriteDispatch(cap, View(), pc))
    {
      isWriting := true;
      info := info[writebackSlice := info[writebackSlice].(state := Done)];
      jobs := jobs[writebackSlice := Write(info[writebackSlice].outSize, 0)];
      writebackSlice := (writebackSlice + 1) % N;
      w := w + 1;
    }

    method Begin(rec: Bytes)
      requires Valid() && pc.Idle? && |rec| == recSize
      modifies this
      ensures Valid() && View() == old(Next(z, cap, recSize, View(), LogProtocol.Begin(rec)))
    {
      BeginKeeps(z, cap, recSize, View(), rec);
      pc := Waiting(rec);
    }

    /** memcpy of the record and the index update. */
    method CopyRecord(rec: Bytes)
      requires Shape(cap, State()) && pc == Copying(rec) && info[processSlice].idx + |rec| <= cap
      modifies this
      ensures View() == old(Prod(cap, View()))
    {
      var idx := info[processSlice].idx;
      inp := inp[processSlice := inp[processSlice][..idx] + rec + inp[processSlice][idx + |rec|..]];
      info := info[processSlice := info[processSlice].(idx := idx + |rec|)];
      added := added + rec;
      pc := Publishing;
    }

    method PublishSlice()
      requires Shape(cap, State()) && pc == Publishing
      modifies this
      ensures View() == old(Prod(cap, View()))
    {
      if info[processSlice].idx >= cap {
        info := info[processSlice := info[processSlice].(state := ProcessReady)];
        processSlice := (processSlice + 1) % N;
        p := p + 1;
      }
      pc := CheckingCompress;
    }

    /** The next atomic statement of addData. */
    method ProducerStep()
      requires Valid()
      modifies this
      ensures Valid() && View() == old(Next(z, cap, recSize, View(), Producer))
    {
      ghost var before := View();
      ProducerKeeps(z, cap, recSize, before);
      Advance();
      assert View() == Next(z, cap, recSize, before, Producer);
    }

    method Advance()
      requires Shape(cap, State()) && (pc.Copying? ==> info[processSlice].idx + |pc.rec| <= cap)
      modifies this
      ensures View() == old(Prod(cap, View()))
    {
      match pc
      case Idle =>
      case Waiting(rec) =>
        if info[processSlice].state == Free {
          pc := Copying(rec);
        } else {
          pc := WaitCompress(rec);
        }
      case WaitCompress(rec) => CheckCompress(WaitWriteback(rec));
      case WaitWriteback(rec) => CheckWriteback(Waiting(rec));
      case Copying(rec) => CopyRecord(rec);
      case Publishing => PublishSlice();
      case CheckingCompress => CheckCompress(CheckingWriteback);
      case CheckingWriteback => CheckWriteback(Idle);
    }

    /** The next statement of the pool task on slice i. */
    method WorkerStep(i: nat)
      requires Valid() && i < N
      modifies this
      ensures Valid() && View() == old(Next(z, cap, recSize, View(), Worker(i)))
    {
      WorkKeeps(z, cap, recSize, View(), i);
      assert JobInBounds(cap, State(), i);
      match jobs[i]
      case NoJob =>
      case Compress(size, n) =>
        if n == 0 {
          out := out[i := z.compress(inp[i][..size])];
          info := info[i := info[i].(outSize := |out[i]|)];
          jobs := jobs[i := Compress(size, 1)];
        } else {
          info := info[i := info[i].(state := ProcessDone)];
          jobs := jobs[i := NoJob];
        }
      case Write(size, n) =>
        if n == 0 {
          file := file + [out[i][..size]];
          jobs := jobs[i := Write(size, 1)];
        } else if n == 1 {
          info := info[i := info[i].(idx := 0)];
          jobs := jobs[i := Write(size, 2)];
        } else if n == 2 {
          info := info[i := info[i].(outSize := 0)];
          jobs := jobs[i := Write(size, 3)];
        } else if n == 3 {
          isWriting := false;
          jobs := jobs[i := Write(size, 4)];
        } else {
          info := info[i := info[i].(state := Free)];
          jobs := jobs[i := NoJob];
        }
    }

    /** A step of the schedule, if it is enabled. */
    method Take(s: Step)
      requires Valid()
      modifies this
      ensures Valid()
      ensures View() == old(if Enabled(recSize, View(), s) then Next(z, cap, recSize, View(), s) else View())
    {
      match s
      case Begin(rec) =>
        if pc.Idle? && |rec| == recSize { Begin(rec); }
      case Producer => ProducerStep();
      case Worker(i) =>
        if i < N { WorkerStep(i); }
    }

    predicate Quiet()
      reads this
      requires |jobs| == N
    {
      forall i :: 0 <= i < N ==> jobs[i] == NoJob
    }

    /** pool.wait(): the workers run, in any order, until no task is left. */
    method PoolWait()
      requires Valid()
      modifies this
      ensures Valid() && Quiet() && added == old(added) && pc == old(pc)
      ensures p == old(p) && c == old(c) && w == old(w)
    {
      while !Quiet()
        invariant Valid() && added == old(added) && pc == old(pc)
        invariant p == old(p) && c == old(c) && w == old(w)
        decreases Pending(jobs)
      {
        var i :| 0 <= i < N && jobs[i] != NoJob;
        ghost var before := View();
        WorkerStep(i);
        WorkFrame(z, cap, before.d, i);
        WorkProgress(z, cap, recSize, before, i);
      }
    }

    /** close(): hand over the partial slice, compress and write what is left. */
    method Close()
      requires Valid() && Quiet() && pc.Idle? && Lossless(z)
      modifies this
      ensures added == old(added) && Decoded(z, file) == added
    {
      ghost var t := Parts(cap, added, p);
      ClosingState(z, cap, recSize, View());
      MarkPartial(t);
      CompressRest(t);
      WriteRest(t);
      DecodedParts(z, cap, file, added);
      assert added[..|added|] == added;
    }

    method MarkPartial(ghost t: nat)
      requires Valid() && Quiet() && pc.Idle? && t == Parts(cap, added, p)
      modifies `info
      ensures |inp| == N && |out| == N && |info| == N && w <= t <= w + N
      ensures CompressLeft(z, cap, added, inp, out, info, w, t, c, p == w + N && w < c)
    {
      ghost var l := View();
      if info[processSlice].idx != 0 {
        info := info[processSlice := info[processSlice].(state := ProcessReady)];
      }
      CloseStart(z, cap, recSize, l, info);
    }

    method CompressRest(ghost t: nat)
      requires |inp| == N && |out| == N && |info| == N && compressSlice == c % N && w <= t <= w + N && w <= c
      requires CompressLeft(z, cap, added, inp, out, info, w, t, c, p == w + N && w < c)
      modifies `out, `info, `compressSlice
      ensures |out| == N && |info| == N && WriteLeft(z, cap, added, out, info, w, t, w)
    {
      ghost var again := p == w + N && w < c;
      ghost var k := c;
      while info[compressSlice].state == ProcessReady
        invariant |out| == N && |info| == N && compressSlice == k % N && w <= k
        invariant CompressLeft(z, cap, added, inp, out, info, w, t, k, again)
        decreases (t - k) + (if again then 1 else 0)
      {
        CompressNext(z, cap, added, inp, out, info, w, t, k, again);
        out := out[compressSlice := z.compress(inp[compressSlice][..info[compressSlice].idx])];
        info := info[compressSlice := info[compressSlice].(outSize := |out[compressSlice]|, state := ProcessDone)];
        compressSlice := (compressSlice + 1) % N;
        NextSlot(k);
        again := again && k < t;
        k := k + 1;
      }
      LeftDone(z, cap, added, inp, out, info, w, t, k, again);
    }

    method WriteRest(ghost t: nat)
      requires |out| == N && |info| == N && writebackSlice == w % N && w <= t <= w + N && |file| == w
      requires WriteLeft(z, cap, added, out, info, w, t, w)
      requires forall j :: 0 <= j < |file| ==> file[j] == z.compress(Part(cap, added, j))
      modifies `file, `info, `writebackSlice
      ensures |file| == t && forall j :: 0 <= j < |file| ==> file[j] == z.compress(Part(cap, added, j))
    {
      ghost var v := w;
      while info[writebackSlice].state == ProcessDone
        invariant |info| == N && writebackSlice == v % N && w <= v <= t && |file| == v
        invariant WriteLeft(z, cap, added, out, info, w, t, v)
        invariant forall j :: 0 <= j < |file| ==> file[j] == z.compress(Part(cap, added, j))
        decreases t - v
      {
        WriteNext(z, cap, added, out, info, w, t, v);
        file := file + [out[writebackSlice][..info[writebackSlice].outSize]];
        info := info[writebackSlice := info[writebackSlice].(state := Free)];
        writebackSlice := (writebackSlice + 1) % N;
        NextSlot(v);
        v := v + 1;
      }
      assert v == t;
    }
  }

  /** How many parts there are: the full slices, and one more for what is left. */
  function Parts(cap: nat, added: Bytes, p: nat): nat {
    if |added| > At(cap, p) then p + 1 else p
  }

  /** What close() finds when the pool is idle. */
  lemma ClosingState(z: Codec, cap: nat, recSize: nat, l: Log)
    requires Inv(z, cap, recSize, l) && l.d.pc.Idle? && forall i :: 0 <= i < N ==> l.d.jobs[i] == NoJob
    ensures |l.d.inp| == N && |l.d.out| == N && |l.d.info| == N && l.d.processSlice < N
    ensures l.d.compressSlice == l.c % N && l.d.writebackSlice == l.w % N && l.w <= l.c
    ensures |l.d.file| == l.w && forall k :: 0 <= k < l.w ==> l.d.file[k] == z.compress(Part(cap, l.added, k))
    ensures Reach(cap, l.added, Parts(cap, l.added, l.p)) == |l.added|
  {
    QuietSlots(z, cap, recSize, l);
    assert At(cap, l.p + 1) == At(cap, l.p) + cap;
  }

  /** Statements left to the tasks in the pool. */
  function Pending(jobs: seq<Job>): nat
    requires |jobs| == N
  {
    Left(jobs[0]) + Left(jobs[1]) + Left(jobs[2]) + Left(jobs[3])
  }

  function Left(j: Job): nat {
    match j
    case NoJob => 0
    case Compress(_, n) => if n == 0 then 2 else 1
    case Write(_, n) => if n <= 3 then 5 - n else 1
  }

  lemma WorkProgress(z: Codec, cap: nat, recSize: nat, l: Log, i: nat)
    requires Inv(z, cap, recSize, l) && i < N && l.d.jobs[i] != NoJob
    ensures |Work(z, cap, l.d, i).jobs| == N && Pending(Work(z, cap, l.d, i).jobs) < Pending(l.d.jobs)
  {
    WorkFrame(z, cap, l.d, i);
    assert SlotOk(z, cap, l, i);
    assert Left(Work(z, cap, l.d, i).jobs[i]) < Left(l.d.jobs[i]);
  }

  // ---- closing ----

  /** A slice waiting in the ring when the pool is idle. */
  predicate PartOk(z: Codec, inp: Bytes, out: Bytes, info: Info, content: Bytes) {
    && info.idx <= |inp| && inp[..info.idx] == content
    && (info.state == ProcessDone ==> out == z.compress(content) && info.outSize == |out|)
  }

  /** With no task left, the slices from w to p are all full, the first ones compressed;
      the file holds the w slices before. */
  lemma QuietSlots(z: Codec, cap: nat, recSize: nat, l: Log)
    requires Inv(z, cap, recSize, l) && l.d.pc.Idle? && forall i :: 0 <= i < N ==> l.d.jobs[i] == NoJob
    ensures forall k :: l.w <= k < l.p ==>
      var s := k % N;
      && PartOk(z, l.d.inp[s], l.d.out[s], l.d.info[s], Part(cap, l.added, k))
      && l.d.info[s].idx == cap
      && l.d.info[s].state == (if k < l.c then ProcessDone else ProcessReady)
    ensures |l.d.file| == l.w && forall k :: 0 <= k < l.w ==> l.d.file[k] == z.compress(Part(cap, l.added, k))
  {
    forall k | l.w <= k < l.p
      ensures PartOk(z, l.d.inp[k % N], l.d.out[k % N], l.d.info[k % N], Part(cap, l.added, k))
      ensures l.d.info[k % N].idx == cap
      ensures l.d.info[k % N].state == (if k < l.c then ProcessDone else ProcessReady)
    {
      QuietSlice(z, cap, recSize, l, k);
    }
    QuietFile(z, cap, recSize, l);
  }

  lemma QuietSlice(z: Codec, cap: nat, recSize: nat, l: Log, k: nat)
    requires Inv(z, cap, recSize, l) && l.d.jobs[k % N] == NoJob && l.w <= k < l.p
    ensures PartOk(z, l.d.inp[k % N], l.d.out[k % N], l.d.info[k % N], Part(cap, l.added, k))
    ensures l.d.info[k % N].idx == cap
    ensures l.d.info[k % N].state == (if k < l.c then ProcessDone else ProcessReady)
  {
    HeldOf(l.p, k);
    AtMono(cap, k, l.p);
    assert SlotOk(z, cap, l, k % N);
    assert l.d.inp[k % N][..cap] == l.d.inp[k % N];
  }

  lemma QuietFile(z: Codec, cap: nat, recSize: nat, l: Log)
    requires Inv(z, cap, recSize, l) && forall i :: 0 <= i < N ==> l.d.jobs[i] == NoJob
    ensures |l.d.file| == l.w && forall k :: 0 <= k < l.w ==> l.d.file[k] == z.compress(Part(cap, l.added, k))
  {
    assert !l.d.isWriting;
    forall k | 0 <= k < l.w ensures l.d.file[k] == z.compress(Part(cap, l.added, k)) {
      AtMono(cap, k, l.p);
      assert Slice(cap, l.added, k) == Part(cap, l.added, k);
    }
  }

  /** While compressing: slices from k on are ready; earlier ones are compressed, except
      that with a full ring the oldest may have been marked ready `again`. */
  predicate CompressLeft(z: Codec, cap: nat, added: Bytes, inp: seq<Bytes>, out: seq<Bytes>, info: seq<Info>,
                         w: nat, t: nat, k: nat, again: bool)
    requires |inp| == N && |out| == N && |info| == N
  {
    && (forall j :: w <= j < t ==>
      && PartOk(z, inp[j % N], out[j % N], info[j % N], Part(cap, added, j))
      && info[j % N].state == (if j >= k || (again && j == w) then ProcessReady else ProcessDone))
    && (again ==> t == w + N && k <= t && w < k)
    && k <= t + 1
    && (t < w + N ==> info[t % N].state == Free && k <= t)
    && (k == t + 1 ==> t == w + N && !again)
  }

  lemma Distinct(w: nat, j: nat, k: nat)
    requires w <= j < w + N && w <= k < w + N && j != k
    ensures j % N != k % N
  {}

  lemma SameSlot(w: nat)
    ensures (w + N) % N == w % N
  {}

  /** The bytes beyond the full slices are one more part. */
  lemma LastPart(cap: nat, added: Bytes, p: nat)
    requires At(cap, p) <= |added| < At(cap, p) + cap
    ensures Part(cap, added, p) == added[At(cap, p)..]
  {}

  /** How the partial slice starts the compression loop. */
  lemma CloseStart(z: Codec, cap: nat, recSize: nat, l: Log, info: seq<Info>)
    requires Inv(z, cap, recSize, l) && l.d.pc.Idle? && forall i :: 0 <= i < N ==> l.d.jobs[i] == NoJob
    requires info == if l.d.info[l.d.processSlice].idx != 0
      then l.d.info[l.d.processSlice := l.d.info[l.d.processSlice].(state := ProcessReady)] else l.d.info
    ensures var t := Parts(cap, l.added, l.p);
      && l.w <= t <= l.w + N
      && CompressLeft(z, cap, l.added, l.d.inp, l.d.out, info, l.w, t, l.c, l.p == l.w + N && l.w < l.c)
  {
    QuietSlots(z, cap, recSize, l);
    if l.p == l.w + N {
      SameSlot(l.w);
      FullRing(z, cap, recSize, l);
      CloseFull(z, cap, l, info);
    } else {
      PartialSlice(z, cap, recSize, l);
      ClosePartial(z, cap, l, info, Parts(cap, l.added, l.p));
    }
  }

  /** In a full ring the slice to fill is full, and nothing is in it beyond that. */
  lemma FullRing(z: Codec, cap: nat, recSize: nat, l: Log)
    requires Inv(z, cap, recSize, l) && l.d.pc.Idle? && l.p == l.w + N
    ensures l.d.info[l.d.processSlice].idx == cap && |l.added| == At(cap, l.p)
  {
    assert SlotOk(z, cap, l, l.p % N);
    HeldSlot(l.p, l.p % N);
  }

  lemma PartialSlice(z: Codec, cap: nat, recSize: nat, l: Log)
    requires Inv(z, cap, recSize, l) && l.d.pc.Idle? && l.p < l.w + N
    requires forall i :: 0 <= i < N ==> l.d.jobs[i] == NoJob
    ensures var s := l.p % N;
      && l.d.info[s].state == Free && l.d.info[s].idx == |l.added| - At(cap, l.p) <= cap
      && l.d.inp[s][..l.d.info[s].idx] == Part(cap, l.added, l.p)
    ensures l.p + 1 < l.w + N ==> l.d.info[(l.p + 1) % N].state == Free
  {
    FreeSlot(z, cap, recSize, l, l.p);
    PartialBytes(cap, recSize, l);
    if l.p + 1 < l.w + N {
      FreeSlot(z, cap, recSize, l, l.p + 1);
    }
  }

  lemma PartialBytes(cap: nat, recSize: nat, l: Log)
    requires Shape(cap, l.d) && 0 < recSize && At(cap, l.p) <= |l.added| && Filling(cap, recSize, l) && l.d.pc.Idle?
    requires l.d.processSlice == l.p % N && l.d.info[l.p % N].state == Free
    ensures var s := l.p % N;
      && l.d.info[s].idx == |l.added| - At(cap, l.p) <= cap
      && l.d.inp[s][..l.d.info[s].idx] == Part(cap, l.added, l.p)
  {
    LastPart(cap, l.added, l.p);
  }

  lemma HeldBefore(p: nat, w: nat, k: nat)
    requires p <= k < w + N && w <= p
    ensures Held(p, k % N) < w
  {}

  lemma FreeSlot(z: Codec, cap: nat, recSize: nat, l: Log, k: nat)
    requires Inv(z, cap, recSize, l) && l.d.jobs[k % N] == NoJob && l.p <= k < l.w + N
    ensures l.d.info[k % N].state == Free
  {
    assert SlotOk(z, cap, l, k % N);
    HeldBefore(l.p, l.w, k);
  }

  lemma CloseFull(z: Codec, cap: nat, l: Log, info: seq<Info>)
    requires Shape(cap, l.d) && l.p == l.w + N && l.w <= l.c <= l.p && |info| == N && 0 < cap
    requires forall k :: l.w <= k < l.p ==>
      var s := k % N;
      && PartOk(z, l.d.inp[s], l.d.out[s], l.d.info[s], Part(cap, l.added, k))
      && l.d.info[s].idx == cap
      && l.d.info[s].state == (if k < l.c then ProcessDone else ProcessReady)
    requires info == l.d.info[l.w % N := l.d.info[l.w % N].(state := ProcessReady)]
    ensures CompressLeft(z, cap, l.added, l.d.inp, l.d.out, info, l.w, l.p, l.c, l.w < l.c)
  {
    forall j | l.w <= j < l.p
      ensures PartOk(z, l.d.inp[j % N], l.d.out[j % N], info[j % N], Part(cap, l.added, j))
      ensures info[j % N].state == (if j >= l.c || (l.w < l.c && j == l.w) then ProcessReady else ProcessDone)
    {
      if j != l.w { Distinct(l.w, j, l.w); }
    }
  }

  lemma ClosePartial(z: Codec, cap: nat, l: Log, info: seq<Info>, t: nat)
    requires Shape(cap, l.d) && l.w <= l.c <= l.p < l.w + N && |info| == N
    requires forall k :: l.w <= k < l.p ==>
      var s := k % N;
      && PartOk(z, l.d.inp[s], l.d.out[s], l.d.info[s], Part(cap, l.added, k))
      && l.d.info[s].idx == cap
      && l.d.info[s].state == (if k < l.c then ProcessDone else ProcessReady)
    requires l.d.info[l.p % N].state == Free && l.d.info[l.p % N].idx <= cap
    requires l.d.inp[l.p % N][..l.d.info[l.p % N].idx] == Part(cap, l.added, l.p)
    requires l.p + 1 < l.w + N ==> l.d.info[(l.p + 1) % N].state == Free
    requires t == if l.d.info[l.p % N].idx != 0 then l.p + 1 else l.p
    requires info == if t == l.p then l.d.info else l.d.info[l.p % N := l.d.info[l.p % N].(state := ProcessReady)]
    ensures CompressLeft(z, cap, l.added, l.d.inp, l.d.out, info, l.w, t, l.c, false)
  {
    forall j | l.w <= j < t
      ensures PartOk(z, l.d.inp[j % N], l.d.out[j % N], info[j % N], Part(cap, l.added, j))
      ensures info[j % N].state == (if j >= l.c then ProcessReady else ProcessDone)
    {
      if j != l.p { Distinct(l.w, j, l.p); }
    }
    if l.p + 1 < l.w + N { Distinct(l.w, l.p, l.p + 1); }
  }

  /** One round of the compression loop. */
  lemma CompressNext(z: Codec, cap: nat, added: Bytes, inp: seq<Bytes>, out: seq<Bytes>, info: seq<Info>,
                     w: nat, t: nat, k: nat, again: bool)
    requires |inp| == N && |out| == N && |info| == N && w <= t <= w + N && w <= k
    requires CompressLeft(z, cap, added, inp, out, info, w, t, k, again)
    requires info[k % N].state == ProcessReady
    ensures k < t || (k == t && again)
    ensures info[k % N].idx <= |inp[k % N]|
    ensures var s := k % N;
      var frame := z.compress(inp[s][..info[s].idx]);
      CompressLeft(z, cap, added, inp, out[s := frame], info[s := info[s].(outSize := |frame|, state := ProcessDone)],
                   w, t, k + 1, again && k < t)
  {
    SameSlot(w);
    NextSlot(w);
    NextSlot(t);
    if t == w + N {
      assert PartOk(z, inp[(w + 1) % N], out[(w + 1) % N], info[(w + 1) % N], Part(cap, added, w + 1));
    }
    var s := k % N;
    var j0 := if k < t then k else w;
    assert PartOk(z, inp[j0 % N], out[j0 % N], info[j0 % N], Part(cap, added, j0));
    forall j | w <= j < t && j != j0 ensures j % N != s {
      Distinct(w, j, j0);
    }
    if t < w + N { Distinct(w, k, t); }
  }

  /** When the compression loop stops, every part is compressed. */
  lemma LeftDone(z: Codec, cap: nat, added: Bytes, inp: seq<Bytes>, out: seq<Bytes>, info: seq<Info>,
                 w: nat, t: nat, k: nat, again: bool)
    requires |inp| == N && |out| == N && |info| == N && w <= t <= w + N && w <= k
    requires CompressLeft(z, cap, added, inp, out, info, w, t, k, again)
    requires info[k % N].state != ProcessReady
    ensures WriteLeft(z, cap, added, out, info, w, t, w)
  {
    SameSlot(w);
  }

  /** While writing back: parts from v on are compressed, earlier ones are free. */
  predicate WriteLeft(z: Codec, cap: nat, added: Bytes, out: seq<Bytes>, info: seq<Info>, w: nat, t: nat, v: nat)
    requires |out| == N && |info| == N
  {
    && (forall j :: v <= j < t ==>
      && info[j % N].state == ProcessDone
      && out[j % N] == z.compress(Part(cap, added, j)) && info[j % N].outSize == |out[j % N]|)
    && (forall j :: w <= j < v ==> info[j % N].state == Free)
    && (t < w + N ==> info[t % N].state == Free)
  }

  /** One round of the writeback loop. */
  lemma WriteNext(z: Codec, cap: nat, added: Bytes, out: seq<Bytes>, info: seq<Info>, w: nat, t: nat, v: nat)
    requires |out| == N && |info| == N && w <= v <= t <= w + N
    requires WriteLeft(z, cap, added, out, info, w, t, v)
    requires info[v % N].state == ProcessDone
    ensures v < t && out[v % N] == z.compress(Part(cap, added, v)) && info[v % N].outSize == |out[v % N]|
    ensures WriteLeft(z, cap, added, out, info[v % N := info[v % N].(state := Free)], w, t, v + 1)
  {
    SameSlot(w);
    forall j | w <= j < t && j != v ensures j % N != v % N {
      if v < t { Distinct(w, j, v); }
    }
    if v < t < w + N { Distinct(w, v, t); }
  }

  /** A whole session: any schedule, then pool.wait() and close() once the last addData has
      returned.  The file then decodes to all records handed over, in order. */
  method Session(z: Codec, cap: nat, recSize: nat, steps: seq<Step>) returns (db: LogDB, closed: bool)
    requires 0 < recSize && 0 < cap && IsMultiple(recSize, cap) && Lossless(z)
    ensures Inv(z, cap, recSize, Initial(cap))
    ensures closed <==> After(z, cap, recSize, Initial(cap), steps).d.pc.Idle?
    ensures closed ==> Decoded(z, db.file) == Logged(z, cap, recSize, Initial(cap), steps)
  {
    db := new LogDB(z, cap, recSize);
    var i := 0;
    while i < |steps|
      invariant 0 <= i <= |steps| && db.z == z && db.cap == cap && db.recSize == recSize && fresh(db)
      invariant db.Valid() && Inv(z, cap, recSize, Initial(cap))
      invariant db.View() == After(z, cap, recSize, Initial(cap), steps[..i])
    {
      assert steps[..i + 1][..i] == steps[..i];
      db.Take(steps[i]);
      i := i + 1;
    }
    assert steps[..i] == steps;
    NothingLostOnEntry(z, cap, recSize, steps);
    closed := db.pc.Idle?;
    if closed {
      db.PoolWait();
      db.Close();
    }
  }
}
