/** How a call of addData waits, with the mutex and the condition variable (src/common/dbhandler.cpp, lines
    76-152): it sleeps without having asked whether anybody will wake it. */
module LogWait {
  import opened LogProtocol
  import opened LogProgress

  /** The producer with its sleep; `again` says that this call has been woken before. */
  datatype Nap = Nap(l: Log, asleep: bool, again: bool)

  /** It holds the mutex from the first test until the slice is free, but for its sleep. */
  predicate HoldsLock(n: Nap) {
    !n.asleep && (n.l.d.pc.Waiting? || n.l.d.pc.WaitCompress? || n.l.d.pc.WaitWriteback?)
  }

  /** What a task does under the mutex: it sets the state and notifies. */
  predicate IsLast(j: Job) {
    (j.Compress? && j.pc != 0) || (j.Write? && j.pc > 3)
  }

  ghost predicate NapOk(z: Codec, cap: nat, recSize: nat, n: Nap) {
    Inv(z, cap, recSize, n.l) && (n.asleep ==> n.l.d.pc.WaitCompress?)
  }

  predicate CanRun(recSize: nat, n: Nap, s: Step) {
    Enabled(recSize, n.l, s) &&
    match s
    case Begin(_) => true
    case Producer => !n.asleep
    case Worker(i) => i < |n.l.d.jobs| && !(HoldsLock(n) && IsLast(n.l.d.jobs[i]))
  }

  function NapNext(z: Codec, cap: nat, recSize: nat, n: Nap, s: Step): (r: Nap)
    requires NapOk(z, cap, recSize, n)
    ensures NapOk(z, cap, recSize, r)
  {
    if !CanRun(recSize, n, s) then n
    else
      NextKeeps(z, cap, recSize, n.l, s);
      var l := Next(z, cap, recSize, n.l, s);
      match s
      case Begin(_) => Nap(l, false, false)
      case Producer => Nap(l, n.l.d.pc.Waiting? && l.d.pc.WaitCompress?, n.again)
      case Worker(i) =>
        WorkFrame(z, cap, n.l.d, i);
        if IsLast(n.l.d.jobs[i]) then Nap(l, false, n.again || n.asleep) else n.(l := l)
  }

  function NapAfter(z: Codec, cap: nat, recSize: nat, n: Nap, steps: seq<Step>): (r: Nap)
    requires NapOk(z, cap, recSize, n)
    ensures NapOk(z, cap, recSize, r)
    decreases |steps|
  {
    if |steps| == 0 then n else NapAfter(z, cap, recSize, NapNext(z, cap, recSize, n, steps[0]), steps[1..])
  }

  lemma NapCons(z: Codec, cap: nat, recSize: nat, n: Nap, s: Step, rest: seq<Step>)
    requires NapOk(z, cap, recSize, n)
    ensures NapAfter(z, cap, recSize, n, [s] + rest) == NapAfter(z, cap, recSize, NapNext(z, cap, recSize, n, s), rest)
  {
    assert ([s] + rest)[1..] == rest;
  }

  lemma FirstAndRest(a: seq<Step>, b: seq<Step>)
    requires |a| > 0
    ensures a == [a[0]] + a[1..] && a + b == [a[0]] + (a[1..] + b)
  {}

  lemma NapAppendStep(z: Codec, cap: nat, recSize: nat, n: Nap, s: Step, t: seq<Step>, b: seq<Step>, m: Nap)
    requires NapOk(z, cap, recSize, n) && m == NapNext(z, cap, recSize, n, s)
    requires NapAfter(z, cap, recSize, m, t + b) == NapAfter(z, cap, recSize, NapAfter(z, cap, recSize, m, t), b)
    ensures NapAfter(z, cap, recSize, n, [s] + (t + b)) == NapAfter(z, cap, recSize, NapAfter(z, cap, recSize, n, [s] + t), b)
  {
    NapCons(z, cap, recSize, n, s, t + b);
    NapCons(z, cap, recSize, n, s, t);
  }

  lemma {:induction false} NapAppend(z: Codec, cap: nat, recSize: nat, n: Nap, a: seq<Step>, b: seq<Step>)
    requires NapOk(z, cap, recSize, n)
    ensures NapAfter(z, cap, recSize, n, a + b) == NapAfter(z, cap, recSize, NapAfter(z, cap, recSize, n, a), b)
    decreases |a|
  {
    if |a| == 0 {
      assert a + b == b;
    } else {
      NapAppend(z, cap, recSize, NapNext(z, cap, recSize, n, a[0]), a[1..], b);
      NapAppendStep(z, cap, recSize, n, a[0], a[1..], b, NapNext(z, cap, recSize, n, a[0]));
      FirstAndRest(a, b);
    }
  }

  // ---- a sleep nobody ends ----

  predicate Lost(n: Nap) {
    n.asleep && IsQuiet(n.l)
  }

  lemma LostStays(z: Codec, cap: nat, recSize: nat, n: Nap, s: Step)
    requires NapOk(z, cap, recSize, n) && Lost(n)
    ensures NapNext(z, cap, recSize, n, s) == n
  {}

  lemma {:induction false} LostForEver(z: Codec, cap: nat, recSize: nat, n: Nap, steps: seq<Step>)
    requires NapOk(z, cap, recSize, n) && Lost(n)
    ensures NapAfter(z, cap, recSize, n, steps) == n
    decreases |steps|
  {
    if |steps| > 0 {
      LostStays(z, cap, recSize, n, steps[0]);
      LostForEver(z, cap, recSize, n, steps[1..]);
    }
  }

  /** While the producer sleeps a task can run to its end, and wakes it. */
  lemma {:induction false} TaskWakes(z: Codec, cap: nat, recSize: nat, n: Nap, i: nat) returns (steps: seq<Step>)
    requires NapOk(z, cap, recSize, n) && n.asleep && i < N && n.l.d.jobs[i] != NoJob
    ensures !NapAfter(z, cap, recSize, n, steps).asleep
    decreases Left(n.l.d.jobs[i])
  {
    var m := NapNext(z, cap, recSize, n, Worker(i));
    if IsLast(n.l.d.jobs[i]) {
      steps := [Worker(i)] + [];
      NapCons(z, cap, recSize, n, Worker(i), []);
    } else {
      WorkFrame(z, cap, n.l.d, i);
      WorkGoesOn(z, cap, n.l.d, i);
      NotLastGoesOn(z, cap, n.l.d, i);
      var rest := TaskWakes(z, cap, recSize, m, i);
      steps := [Worker(i)] + rest;
      NapCons(z, cap, recSize, n, Worker(i), rest);
    }
  }

  lemma NotLastGoesOn(z: Codec, cap: nat, d: Db, i: nat)
    requires Shape(cap, d) && i < N && d.jobs[i] != NoJob && !IsLast(d.jobs[i])
    requires Shape(cap, Work(z, cap, d, i))
    ensures Work(z, cap, d, i).jobs[i] != NoJob
    ensures forall j :: 0 <= j < N ==> Work(z, cap, d, i).info[j].state == d.info[j].state
  {}

  /** A sleeping call sleeps for ever exactly if no task is running. */
  lemma SleepsForEverIff(z: Codec, cap: nat, recSize: nat, n: Nap)
    requires NapOk(z, cap, recSize, n) && n.asleep
    ensures (forall steps :: NapAfter(z, cap, recSize, n, steps).asleep) <==> IsQuiet(n.l)
  {
    if IsQuiet(n.l) {
      forall steps ensures NapAfter(z, cap, recSize, n, steps).asleep {
        LostForEver(z, cap, recSize, n, steps);
      }
    } else {
      var i :| 0 <= i < N && n.l.d.jobs[i] != NoJob;
      var steps := TaskWakes(z, cap, recSize, n, i);
    }
  }

  // ---- once woken, a call is not lost ----

  /** If nobody works, either the slice is free or the oldest part waits to be written. */
  predicate WriteWaits(l: Log) {
    IsQuiet(l) && !SliceIsFree(l) ==>
      !l.d.isWriting && l.d.writebackSlice < |l.d.info| && l.d.info[l.d.writebackSlice].state == ProcessDone
  }

  /** A call that has been woken: it sleeps only while a task is running. */
  predicate AgainOk(n: Nap) {
    n.again ==>
      && (n.asleep ==> !IsQuiet(n.l))
      && (!n.asleep && n.l.d.pc.WaitWriteback? ==> WriteWaits(n.l))
      && (n.l.d.pc.Waiting? ==> SliceIsFree(n.l) || !IsQuiet(n.l))
  }

  lemma DispatchRuns(cap: nat, l: Log)
    requires CanStep(cap, l) && l.d.pc.WaitCompress? && l.d.info[l.d.compressSlice].state == ProcessReady
    ensures !IsQuiet(Prod(cap, l))
  {
    assert Prod(cap, l).d.jobs[l.d.compressSlice].Compress?;
  }

  lemma CompressLeaves(z: Codec, cap: nat, recSize: nat, l: Log)
    requires Inv(z, cap, recSize, l) && l.d.pc.WaitCompress?
    requires CanStep(cap, l) && Inv(z, cap, recSize, Prod(cap, l))
    ensures WriteWaits(Prod(cap, l))
  {
    var l' := Prod(cap, l);
    if l.d.info[l.d.compressSlice].state == ProcessReady { DispatchRuns(cap, l); }
    if IsQuiet(l') && !SliceIsFree(l') {
      NobodyWrites(z, cap, recSize, l');
      RingIsFull(z, cap, recSize, l');
    }
  }

  lemma WriteLeaves(cap: nat, l: Log)
    requires CanStep(cap, l) && l.d.pc.WaitWriteback? && WriteWaits(l) && Shape(cap, Prod(cap, l).d)
    ensures SliceIsFree(Prod(cap, l)) || !IsQuiet(Prod(cap, l))
  {
    var l' := Prod(cap, l);
    if IsQuiet(l) && !SliceIsFree(l) {
      assert l'.d.jobs[l.d.writebackSlice].Write?;
    } else if !IsQuiet(l) {
      var i :| 0 <= i < N && l.d.jobs[i] != NoJob;
      assert l'.d.jobs[i] != NoJob;
    }
  }

  lemma ProducerAgain(z: Codec, cap: nat, recSize: nat, n: Nap)
    requires NapOk(z, cap, recSize, n) && AgainOk(n) && !n.asleep
    ensures AgainOk(NapNext(z, cap, recSize, n, Producer))
  {
    StepsAreProd(z, cap, recSize, n.l);
    if n.again {
      if n.l.d.pc.WaitCompress? {
        CompressLeaves(z, cap, recSize, n.l);
      } else if n.l.d.pc.WaitWriteback? {
        WriteLeaves(cap, n.l);
      } else if n.l.d.pc.Waiting? {
        assert Prod(cap, n.l).d.jobs == n.l.d.jobs;
      }
    }
  }

  lemma WorkerAgain(z: Codec, cap: nat, recSize: nat, n: Nap, i: nat)
    requires NapOk(z, cap, recSize, n) && AgainOk(n) && i < N
    ensures AgainOk(NapNext(z, cap, recSize, n, Worker(i)))
  {
    var d, d' := n.l.d, Work(z, cap, n.l.d, i);
    WorkFrame(z, cap, d, i);
    if n.again && CanRun(recSize, n, Worker(i)) && d.jobs[i] != NoJob && !IsLast(d.jobs[i]) {
      NotLastGoesOn(z, cap, d, i);
      assert d'.jobs[i] != NoJob;
    }
  }

  lemma NapKeeps(z: Codec, cap: nat, recSize: nat, n: Nap, s: Step)
    requires NapOk(z, cap, recSize, n) && AgainOk(n)
    ensures AgainOk(NapNext(z, cap, recSize, n, s))
  {
    if CanRun(recSize, n, s) {
      match s
      case Begin(_) =>
      case Producer => ProducerAgain(z, cap, recSize, n);
      case Worker(i) => WorkerAgain(z, cap, recSize, n, i);
    }
  }

  /** In every run: a call that is lost has not been woken before; it was lost at its first test. */
  lemma {:induction false} LostOnlyAtFirst(z: Codec, cap: nat, recSize: nat, n: Nap, steps: seq<Step>)
    requires NapOk(z, cap, recSize, n) && AgainOk(n)
    ensures AgainOk(NapAfter(z, cap, recSize, n, steps))
    ensures Lost(NapAfter(z, cap, recSize, n, steps)) ==> !NapAfter(z, cap, recSize, n, steps).again
    decreases |steps|
  {
    if |steps| > 0 {
      NapKeeps(z, cap, recSize, n, steps[0]);
      LostOnlyAtFirst(z, cap, recSize, NapNext(z, cap, recSize, n, steps[0]), steps[1..]);
    }
  }

  /** A call becomes lost only by its first test, with its slice not free and no task running. */
  lemma LostArises(z: Codec, cap: nat, recSize: nat, n: Nap, s: Step)
    requires NapOk(z, cap, recSize, n) && AgainOk(n) && !Lost(n) && Lost(NapNext(z, cap, recSize, n, s))
    ensures s.Producer? && n.l.d.pc.Waiting? && !n.again && !SliceIsFree(n.l) && IsQuiet(n.l)
  {
    StepsAreProd(z, cap, recSize, n.l);
    match s
    case Begin(_) =>
    case Producer =>
    case Worker(i) =>
      if i < N && n.asleep && n.l.d.jobs[i] != NoJob && !IsLast(n.l.d.jobs[i]) {
        WorkFrame(z, cap, n.l.d, i);
        NotLastGoesOn(z, cap, n.l.d, i);
      }
  }

  // ---- what decides at the entry ----

  /** Between the call and its first test the workers end no task. */
  predicate SameEntry(a: Nap, b: Nap) {
    && b.l.d.pc == a.l.d.pc && b.asleep == a.asleep && b.again == a.again
    && IsQuiet(b.l) == IsQuiet(a.l) && SliceIsFree(b.l) == SliceIsFree(a.l)
  }

  lemma WorkerBeforeTest(z: Codec, cap: nat, recSize: nat, n: Nap, i: nat)
    requires NapOk(z, cap, recSize, n) && HoldsLock(n) && i < N
    ensures SameEntry(n, NapNext(z, cap, recSize, n, Worker(i)))
  {
    var d, d' := n.l.d, Work(z, cap, n.l.d, i);
    WorkFrame(z, cap, d, i);
    if d.jobs[i] != NoJob && !IsLast(d.jobs[i]) {
      NotLastGoesOn(z, cap, d, i);
      assert d'.jobs[i] != NoJob;
    }
  }

  lemma {:induction false} EntryStays(z: Codec, cap: nat, recSize: nat, n: Nap, work: seq<Step>)
    requires NapOk(z, cap, recSize, n) && n.l.d.pc.Waiting? && !n.asleep
    requires forall j :: 0 <= j < |work| ==> work[j].Worker? && work[j].slot < N
    ensures SameEntry(n, NapAfter(z, cap, recSize, n, work))
    decreases |work|
  {
    if |work| > 0 {
      WorkerBeforeTest(z, cap, recSize, n, work[0].slot);
      EntryStays(z, cap, recSize, NapNext(z, cap, recSize, n, work[0]), work[1..]);
    }
  }

  /** A call of addData is lost exactly if at its entry its slice is not free and no task is running. */
  lemma CallIsLostIff(z: Codec, cap: nat, recSize: nat, n: Nap, rec: Bytes, work: seq<Step>)
    requires NapOk(z, cap, recSize, n) && n.l.d.pc.Idle? && |rec| == recSize
    requires forall j :: 0 <= j < |work| ==> work[j].Worker? && work[j].slot < N
    ensures var m := NapAfter(z, cap, recSize, NapNext(z, cap, recSize, n, Begin(rec)), work);
      Lost(NapNext(z, cap, recSize, m, Producer)) <==> !SliceIsFree(n.l) && IsQuiet(n.l)
  {
    var b := NapNext(z, cap, recSize, n, Begin(rec));
    assert b == Nap(n.l.(d := n.l.d.(pc := Waiting(rec))), false, false);
    EntryStays(z, cap, recSize, b, work);
    FirstTest(z, cap, recSize, NapAfter(z, cap, recSize, b, work));
  }

  lemma FirstTest(z: Codec, cap: nat, recSize: nat, n: Nap)
    requires NapOk(z, cap, recSize, n) && n.l.d.pc.Waiting? && !n.asleep
    ensures Lost(NapNext(z, cap, recSize, n, Producer)) <==> !SliceIsFree(n.l) && IsQuiet(n.l)
  {
    StepsAreProd(z, cap, recSize, n.l);
    assert Prod(cap, n.l).d.jobs == n.l.d.jobs;
  }

  // ---- it happens ----

  /** k records have been taken, each filling a slice; all are being compressed. */
  predicate Packed(cap: nat, n: Nap, k: nat) {
    && Shape(cap, n.l.d) && n.l.d.pc.Idle? && !n.asleep && !n.l.d.isWriting
    && n.l.p == k && n.l.c == k && n.l.w == 0 && k <= N
    && n.l.d.processSlice == k % N && n.l.d.compressSlice == k % N && n.l.d.writebackSlice == 0
    && (forall i :: 0 <= i < k ==> n.l.d.info[i].state == Processing && n.l.d.jobs[i] == Compress(cap, 0))
    && (forall i :: k <= i < N ==> n.l.d.info[i].state == Free && n.l.d.info[i].idx == 0 && n.l.d.jobs[i] == NoJob)
  }

  lemma PackTest(cap: nat, l: Log, rec: Bytes)
    requires CanStep(cap, l) && l.d.pc == Waiting(rec) && l.d.info[l.d.processSlice].state == Free
    ensures Prod(cap, l) == l.(d := l.d.(pc := Copying(rec)))
  {}

  lemma PackCopy(cap: nat, l: Log, rec: Bytes)
    requires CanStep(cap, l) && l.d.pc == Copying(rec) && |rec| == cap && l.d.info[l.d.processSlice].idx == 0
    ensures var r, s := Prod(cap, l), l.d.processSlice;
      && r.d.info == l.d.info[s := l.d.info[s].(idx := cap)] && r.d.jobs == l.d.jobs && r.d.pc == Publishing
      && r == l.(d := l.d.(inp := r.d.inp, info := r.d.info, pc := r.d.pc), added := r.added)
  {}

  lemma PackPublish(cap: nat, l: Log)
    requires CanStep(cap, l) && l.d.pc == Publishing && l.d.info[l.d.processSlice].idx == cap
    ensures var s := l.d.processSlice;
      Prod(cap, l) == l.(d := l.d.(info := l.d.info[s := l.d.info[s].(state := ProcessReady)],
                                   processSlice := (s + 1) % N, pc := CheckingCompress), p := l.p + 1)
  {}

  lemma PackCheck(cap: nat, l: Log, l': Log)
    requires CanStep(cap, l) && l.d.pc == CheckingCompress && l.d.info[l.d.compressSlice].state == ProcessReady
    requires l' == Prod(cap, l) && CanStep(cap, l') && l.d.writebackSlice < N
    requires l.d.info[l.d.writebackSlice].state == Processing || l.d.compressSlice == l.d.writebackSlice
    ensures var s := l.d.compressSlice;
      Prod(cap, l') == l.(d := l.d.(info := l.d.info[s := l.d.info[s].(state := Processing)],
                                    jobs := l.d.jobs[s := Compress(l.d.info[s].idx, 0)],
                                    compressSlice := (s + 1) % N, pc := Idle), c := l.c + 1)
  {}

  /** The record has been copied and fills slice k. */
  predicate Filled(cap: nat, n: Nap, k: nat) {
    && Shape(cap, n.l.d) && n.l.d.pc.Publishing? && !n.asleep && !n.l.d.isWriting
    && n.l.p == k && n.l.c == k && n.l.w == 0 && k < N
    && n.l.d.processSlice == k && n.l.d.compressSlice == k && n.l.d.writebackSlice == 0
    && (forall i :: 0 <= i < k ==> n.l.d.info[i].state == Processing && n.l.d.jobs[i] == Compress(cap, 0))
    && (forall i :: k <= i < N ==> n.l.d.info[i].state == Free && n.l.d.jobs[i] == NoJob)
    && n.l.d.info[k].idx == cap && (forall i :: k < i < N ==> n.l.d.info[i].idx == 0)
  }

  lemma ProducerNap(z: Codec, cap: nat, n: Nap) returns (m: Nap)
    requires NapOk(z, cap, cap, n) && !n.asleep
    ensures CanStep(cap, n.l) && NapOk(z, cap, cap, m) && m == NapNext(z, cap, cap, n, Producer)
    ensures m == Nap(Prod(cap, n.l), n.l.d.pc.Waiting? && Prod(cap, n.l).d.pc.WaitCompress?, n.again)
    ensures CanStep(cap, m.l)
  {
    StepsAreProd(z, cap, cap, n.l);
    m := NapNext(z, cap, cap, n, Producer);
    StepsAreProd(z, cap, cap, m.l);
  }

  lemma PackEnters(z: Codec, cap: nat, n: Nap, k: nat, rec: Bytes) returns (n1: Nap, n2: Nap, n3: Nap)
    requires NapOk(z, cap, cap, n) && Packed(cap, n, k) && k < N && |rec| == cap
    ensures NapOk(z, cap, cap, n1) && NapOk(z, cap, cap, n2) && NapOk(z, cap, cap, n3) && Filled(cap, n3, k)
    ensures n1 == NapNext(z, cap, cap, n, Begin(rec)) && n2 == NapNext(z, cap, cap, n1, Producer)
    ensures n3 == NapNext(z, cap, cap, n2, Producer)
  {
    n1 := NapNext(z, cap, cap, n, Begin(rec));
    assert n1 == Nap(n.l.(d := n.l.d.(pc := Waiting(rec))), false, false);
    n2 := ProducerNap(z, cap, n1);
    PackTest(cap, n1.l, rec);
    n3 := ProducerNap(z, cap, n2);
    PackCopy(cap, n2.l, rec);
  }

  lemma PackLeaves(z: Codec, cap: nat, n: Nap, k: nat) returns (n1: Nap, n2: Nap, n3: Nap)
    requires NapOk(z, cap, cap, n) && Filled(cap, n, k)
    ensures NapOk(z, cap, cap, n1) && NapOk(z, cap, cap, n2) && NapOk(z, cap, cap, n3) && Packed(cap, n3, k + 1)
    ensures n1 == NapNext(z, cap, cap, n, Producer) && n2 == NapNext(z, cap, cap, n1, Producer)
    ensures n3 == NapNext(z, cap, cap, n2, Producer)
  {
    n1 := ProducerNap(z, cap, n);
    PackPublish(cap, n.l);
    n2 := ProducerNap(z, cap, n1);
    n3 := ProducerNap(z, cap, n2);
    PackCheck(cap, n1.l, n2.l);
    PackResult(cap, n, k, n3);
  }

  lemma PackResult(cap: nat, n: Nap, k: nat, m: Nap)
    requires Filled(cap, n, k) && Shape(cap, m.l.d) && !m.asleep
    requires m.l.d == n.l.d.(info := n.l.d.info[k := n.l.d.info[k].(state := Processing)],
                             jobs := n.l.d.jobs[k := Compress(cap, 0)],
                             processSlice := (k + 1) % N, compressSlice := (k + 1) % N, pc := Idle)
    requires m.l.p == n.l.p + 1 && m.l.c == n.l.c + 1 && m.l.w == n.l.w
    ensures Packed(cap, m, k + 1)
  {}

  lemma ThreeOf(z: Codec, cap: nat, n: Nap, n1: Nap, n2: Nap, n3: Nap, s: Step)
    requires NapOk(z, cap, cap, n) && n1 == NapNext(z, cap, cap, n, s)
    requires n2 == NapNext(z, cap, cap, n1, Producer) && n3 == NapNext(z, cap, cap, n2, Producer)
    ensures n3 == NapAfter(z, cap, cap, n, [s, Producer, Producer])
  {
    NapCons(z, cap, cap, n2, Producer, []);
    NapCons(z, cap, cap, n1, Producer, [Producer]);
    NapCons(z, cap, cap, n, s, [Producer, Producer]);
  }

  /** One more record fills a slice; no task has got any further. */
  lemma PackOne(z: Codec, cap: nat, n: Nap, k: nat, rec: Bytes) returns (steps: seq<Step>, m: Nap)
    requires NapOk(z, cap, cap, n) && Packed(cap, n, k) && k < N && |rec| == cap
    ensures NapOk(z, cap, cap, m) && Packed(cap, m, k + 1) && m == NapAfter(z, cap, cap, n, steps)
  {
    var n1, n2, n3 := PackEnters(z, cap, n, k, rec);
    var n4, n5, n6 := PackLeaves(z, cap, n3, k);
    m := n6;
    ThreeOf(z, cap, n, n1, n2, n3, Begin(rec));
    ThreeOf(z, cap, n3, n4, n5, n6, Producer);
    var enter, leave := [Begin(rec), Producer, Producer], [Producer, Producer, Producer];
    steps := enter + leave;
    NapAppend(z, cap, cap, n, enter, leave);
  }

  /** While no call is waiting the tasks can all run to their ends. */
  lemma {:induction false} TaskEnds(z: Codec, cap: nat, recSize: nat, n: Nap, i: nat) returns (steps: seq<Step>)
    requires NapOk(z, cap, recSize, n) && n.l.d.pc.Idle? && i < N
    ensures var m := NapAfter(z, cap, recSize, n, steps);
      && SameProducer(n.l, m.l) && m.l.d.jobs[i] == NoJob
      && forall j :: 0 <= j < N && j != i ==> m.l.d.jobs[j] == n.l.d.jobs[j]
    decreases Left(n.l.d.jobs[i])
  {
    if n.l.d.jobs[i] == NoJob {
      steps := [];
    } else {
      WorkFrame(z, cap, n.l.d, i);
      WorkGoesOn(z, cap, n.l.d, i);
      var rest := TaskEnds(z, cap, recSize, NapNext(z, cap, recSize, n, Worker(i)), i);
      steps := [Worker(i)] + rest;
      NapCons(z, cap, recSize, n, Worker(i), rest);
    }
  }

  lemma {:induction false} TasksEnd(z: Codec, cap: nat, recSize: nat, n: Nap, k: nat) returns (steps: seq<Step>)
    requires NapOk(z, cap, recSize, n) && n.l.d.pc.Idle? && k <= N
    ensures var m := NapAfter(z, cap, recSize, n, steps);
      SameProducer(n.l, m.l) && forall j :: 0 <= j < k ==> m.l.d.jobs[j] == NoJob
    decreases k
  {
    if k == 0 {
      steps := [];
    } else {
      var front := TasksEnd(z, cap, recSize, n, k - 1);
      var m := NapAfter(z, cap, recSize, n, front);
      var rest := TaskEnds(z, cap, recSize, m, k - 1);
      steps := front + rest;
      NapAppend(z, cap, recSize, n, front, rest);
    }
  }

  lemma {:induction false} PackAll(z: Codec, cap: nat, n: Nap, k: nat, rec: Bytes) returns (steps: seq<Step>)
    requires NapOk(z, cap, cap, n) && Packed(cap, n, k) && |rec| == cap
    ensures Packed(cap, NapAfter(z, cap, cap, n, steps), N)
    decreases N - k
  {
    if k == N {
      steps := [];
    } else {
      var one, m := PackOne(z, cap, n, k, rec);
      var rest := PackAll(z, cap, m, k + 1, rec);
      steps := one + rest;
      NapAppend(z, cap, cap, n, one, rest);
    }
  }

  lemma StartsPacked(z: Codec, cap: nat)
    requires 0 < cap
    ensures NapOk(z, cap, cap, Nap(Initial(cap), false, false)) && Packed(cap, Nap(Initial(cap), false, false), 0)
  {
    assert IsMultiple(cap, cap - cap);
    InitialInv(z, cap, cap);
  }

  lemma OneMoreCall(z: Codec, cap: nat, m: Nap, rec: Bytes)
    requires NapOk(z, cap, cap, m) && m.l.d.pc.Idle? && IsQuiet(m.l) && m.l.p == m.l.w + N && |rec| == cap
    ensures Lost(NapAfter(z, cap, cap, m, [Begin(rec), Producer]))
  {
    StaysFull(z, cap, cap, m.l);
    CallIsLostIff(z, cap, cap, m, rec, []);
    NapCons(z, cap, cap, m, Begin(rec), [Producer]);
    NapCons(z, cap, cap, NapNext(z, cap, cap, m, Begin(rec)), Producer, []);
  }

  /** Four records of the size of a slice, the pool busy until the last call has returned and idle before
      the next begins: the fifth call sleeps for ever. */
  lemma FifthCallIsLost(z: Codec, cap: nat, rec: Bytes) returns (steps: seq<Step>)
    requires 0 < cap && |rec| == cap
    ensures NapOk(z, cap, cap, Nap(Initial(cap), false, false))
    ensures forall more :: Lost(NapAfter(z, cap, cap, Nap(Initial(cap), false, false), steps + more))
  {
    StartsPacked(z, cap);
    var n := Nap(Initial(cap), false, false);
    var fill := PackAll(z, cap, n, 0, rec);
    var m1 := NapAfter(z, cap, cap, n, fill);
    var work := TasksEnd(z, cap, cap, m1, N);
    var m2 := NapAfter(z, cap, cap, m1, work);
    OneMoreCall(z, cap, m2, rec);
    steps := fill + (work + [Begin(rec), Producer]);
    NapAppend(z, cap, cap, m1, work, [Begin(rec), Producer]);
    NapAppend(z, cap, cap, n, fill, work + [Begin(rec), Producer]);
    forall more ensures Lost(NapAfter(z, cap, cap, n, steps + more)) {
      NapAppend(z, cap, cap, n, steps, more);
      LostForEver(z, cap, cap, NapAfter(z, cap, cap, n, steps), more);
    }
  }
}
