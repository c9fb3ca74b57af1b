/** What every run of a first-level cache keeps. */
module CacheProof {
  import opened CacheSpec

  // ---- requests and callbacks ----

  /** A flush has as many ticks left as there are sets left. */
  predicate FlushOk(k: Config, c: Cache) {
    c.flushValid ==> (k.data ==> 0 < c.flushNum) && (if c.flushNum == 0 then 65536 else c.flushNum) + c.flushSet == SetSize(k)
  }

  /** The counter of a flush can hold the number of sets. */
  predicate FlushFits(k: Config) {
    0 < k.ways && (k.data || SetSize(k) <= 65536)
  }

  /** A line is missing and wanted. */
  predicate Waiting(c: Cache) {
    c.state == Miss || (c.state == Lookup && !c.hit)
  }

  predicate Protocol(k: Config, r: Run) {
    && r.h.inflight <= 1
    && (r.c.state == Miss ==> r.h.inflight == 1 && !r.c.clearWait)
    && (r.h.inflight == 1 ==> r.c.state == Miss || r.c.clearWait)
    && (r.c.idleValid ==> r.c.state == Idle || (r.c.state == Lookup && r.c.hit && !(k.data && r.c.req.write)))
  }

  predicate Increasing(calls: seq<nat>, below: nat) {
    && (forall i :: 0 <= i < |calls| ==> calls[i] < below)
    && (forall i, j :: 0 <= i < j < |calls| ==> calls[i] < calls[j])
  }

  /** The requests that may still be called back came after the last redirect, and after all
      called back so far. */
  predicate Numbers(c: Cache, h: History) {
    && h.epoch <= h.accepted && Increasing(h.calls, h.accepted)
    && (c.idleValid ==> h.epoch <= h.idleNo < h.accepted && Increasing(h.calls, h.idleNo))
    && (Waiting(c) ==> h.epoch <= h.reqNo < h.accepted && Increasing(h.calls, h.reqNo))
  }

  predicate Inv(k: Config, r: Run) {
    Shape(k, r.c) && FlushOk(k, r.c) && FlushFits(k) && Protocol(k, r) && Numbers(r.c, r.h)
  }

  function Start(k: Config, tags: seq<seq<Tagv>>): Run {
    Run(Cache(tags, Idle, false, Req(0, false), false, Req(0, false), 0, 0, 0, 0, false, false, 0, 0),
        History(0, (0, 0), 0, 0, 0, 0, [], [], 0, [], []))
  }

  /** All ways invalid, as after construction. */
  predicate Empty(k: Config, tags: seq<seq<Tagv>>) {
    && |tags| == SetSize(k) && (forall s :: 0 <= s < |tags| ==> |tags[s]| == k.ways)
    && (forall s, w :: 0 <= s < |tags| && 0 <= w < |tags[s]| ==> !tags[s][w].valid)
  }

  lemma StartInv(k: Config, tags: seq<seq<Tagv>>)
    requires Empty(k, tags) && FlushFits(k)
    ensures Inv(k, Start(k, tags))
  {}

  lemma HandleKeeps(k: Config, r: Run, redirects: bool)
    requires Inv(k, r) && !r.c.flushValid && r.c.idleValid && (redirects ==> !k.data)
    requires r.c.state == Idle || r.c.state == Lookup
    ensures Split(k, r.c.idleReq.addr).0 < |r.c.tags|
    ensures var r' := Handle(k, r, redirects);
      Inv(k, r') && Inv(k, r'.(c := r'.c.(state := Lookup)))
  {
    SplitInRange(k, r.c.idleReq.addr);
  }

  lemma FlushTickInv(k: Config, r: Run)
    requires Inv(k, r) && r.c.flushValid
    ensures Inv(k, FlushTick(k, r))
  {}

  lemma AskKeeps(k: Config, r: Run, req: Req)
    requires Inv(k, r)
    ensures Inv(k, AskStep(k, r, req))
  {}

  lemma ParentKeeps(k: Config, r: Run, accepts: bool, way: nat)
    requires Inv(k, r) && way < k.ways && r.c.state == Lookup && !r.c.hit
    ensures Inv(k, AskParent(r, accepts, way))
  {}

  /** The tick, but for new requests and the flush. */
  lemma TickKeeps(k: Config, r: Run, accepts: bool, way: nat, redirects: bool)
    requires Inv(k, r) && way < k.ways && !r.c.flushValid && Split(k, r.c.idleReq.addr).0 < |r.c.tags|
    requires r.c.idleValid ==> r.c.state != Idle && r.c.state != Lookup
    ensures Inv(k, TickStep(k, r, accepts, way, redirects))
  {
    if r.c.state == Lookup && !r.c.hit {
      ParentKeeps(k, r, accepts, way);
    }
  }

  /** A request that waited is handled at the tick it can be. */
  lemma TickHandles(k: Config, r: Run, accepts: bool, way: nat, redirects: bool)
    requires Inv(k, r) && !r.c.flushValid && r.c.idleValid && (redirects ==> !k.data)
    requires Split(k, r.c.idleReq.addr).0 < |r.c.tags| && (r.c.state == Idle || r.c.state == Lookup)
    ensures Inv(k, TickStep(k, r, accepts, way, redirects))
  {
    HandleKeeps(k, r, redirects);
  }

  lemma AnswerKeepsInv(k: Config, r: Run, redirects: bool)
    requires Inv(k, r) && 0 < r.h.inflight && (redirects ==> !k.data)
    ensures Inv(k, AnswerStep(k, r, redirects))
  {}

  lemma RedirectKeeps(k: Config, r: Run)
    requires Inv(k, r)
    ensures Inv(k, RedirectStep(k, r, false))
  {}

  lemma NextKeeps(k: Config, r: Run, s: Step)
    requires Inv(k, r) && Enabled(k, r, s)
    ensures Inv(k, Next(k, r, s))
  {
    match s
    case Ask(req) => AskKeeps(k, r, req);
    case Tick(accepts, way, redirects) =>
      SplitInRange(k, r.c.idleReq.addr);
      if r.c.flushValid {
        FlushTickInv(k, r);
      } else if r.c.idleValid && (r.c.state == Idle || r.c.state == Lookup) {
        TickHandles(k, r, accepts, way, redirects);
      } else {
        TickKeeps(k, r, accepts, way, redirects);
      }
    case Answer(redirects) => AnswerKeepsInv(k, r, redirects);
    case Flush =>
    case Redirect => RedirectKeeps(k, r);
  }

  /** The state after a schedule; steps that are not enabled do nothing. */
  function After(k: Config, r: Run, steps: seq<Step>): (r': Run)
    requires Inv(k, r)
    ensures Inv(k, r')
  {
    if |steps| == 0 then r
    else
      var m := After(k, r, steps[..|steps| - 1]);
      var s := steps[|steps| - 1];
      if Enabled(k, m, s) then
        NextKeeps(k, m, s);
        Next(k, m, s)
      else m
  }

  /** In every run: at most one parent request is out, an abandoned one never coexists with a
      miss being served, and no request is called back twice or out of order. */
  lemma EveryRunIsSafe(k: Config, tags: seq<seq<Tagv>>, steps: seq<Step>)
    requires Empty(k, tags) && FlushFits(k)
    ensures Inv(k, Start(k, tags))
    ensures var r := After(k, Start(k, tags), steps);
      && r.h.inflight <= 1
      && !(r.c.clearWait && r.c.state == Miss)
      && (forall i, j :: 0 <= i < j < |r.h.calls| ==> r.h.calls[i] < r.h.calls[j])
  {
    StartInv(k, tags);
  }

  /** A step calls back at most one request, and only one accepted since the last redirect. */
  lemma CallIsCurrent(k: Config, r: Run, s: Step)
    requires Inv(k, r) && Enabled(k, r, s)
    ensures var r' := Next(k, r, s);
      && r.h.epoch <= r'.h.epoch && r.h.accepted <= r'.h.accepted
      && (r'.h.calls == r.h.calls
          || (|r'.h.calls| == |r.h.calls| + 1 && r'.h.calls[..|r.h.calls|] == r.h.calls && r'.h.calls[|r.h.calls|] >= r.h.epoch))
  {
    SplitInRange(k, r.c.idleReq.addr);
  }

  lemma {:induction false} CallsSince(k: Config, r: Run, steps: seq<Step>)
    requires Inv(k, r)
    ensures var r' := After(k, r, steps);
      && r.h.epoch <= r'.h.epoch && |r.h.calls| <= |r'.h.calls|
      && (forall i :: |r.h.calls| <= i < |r'.h.calls| ==> r.h.epoch <= r'.h.calls[i])
  {
    if |steps| > 0 {
      CallsSince(k, r, steps[..|steps| - 1]);
      var m := After(k, r, steps[..|steps| - 1]);
      if Enabled(k, m, steps[|steps| - 1]) {
        CallIsCurrent(k, m, steps[|steps| - 1]);
      }
    }
  }

  /** After a redirect the CPU never hears of a request accepted before it, whatever comes after. */
  lemma NoStaleCallback(k: Config, r: Run, steps: seq<Step>)
    requires Inv(k, r)
    ensures Inv(k, Next(k, r, Redirect))
    ensures var r' := After(k, Next(k, r, Redirect), steps);
      forall i :: |r.h.calls| <= i < |r'.h.calls| ==> r.h.accepted <= r'.h.calls[i]
  {
    NextKeeps(k, r, Redirect);
    CallsSince(k, Next(k, r, Redirect), steps);
  }

  // ---- what can go wrong ----

  /** Waiting for an abandoned answer that will never come. */
  predicate Orphaned(r: Run) {
    r.c.clearWait && r.h.inflight == 0
  }

  /** Exactly one step brings that about: a redirect of a refilled line not yet delivered,
      outside a callback. */
  lemma OrphanedBy(k: Config, r: Run, s: Step)
    requires Inv(k, r) && Enabled(k, r, s) && !Orphaned(r)
    ensures Orphaned(Next(k, r, s)) <==> s == Redirect && r.c.state == Refill && r.h.inflight == 0
  {
    SplitInRange(k, r.c.idleReq.addr);
  }

  lemma OrphanStays(k: Config, r: Run, s: Step)
    requires Inv(k, r) && Enabled(k, r, s) && Orphaned(r)
    ensures Orphaned(Next(k, r, s)) && Next(k, r, s).h.line == r.h.line
  {
    SplitInRange(k, r.c.idleReq.addr);
  }

  /** From then on no line is ever asked for again. */
  lemma {:induction false} OrphanedForever(k: Config, r: Run, steps: seq<Step>)
    requires Inv(k, r) && Orphaned(r)
    ensures Orphaned(After(k, r, steps)) && After(k, r, steps).h.line == r.h.line
  {
    if |steps| > 0 {
      OrphanedForever(k, r, steps[..|steps| - 1]);
      var m := After(k, r, steps[..|steps| - 1]);
      if Enabled(k, m, steps[|steps| - 1]) {
        OrphanStays(k, m, steps[|steps| - 1]);
      }
    }
  }

  // ---- how far a flush gets ----

  /** The cache n ticks after a call of flush. */
  function Flushing(k: Config, r: Run, n: nat): (r': Run)
    requires Shape(k, r.c)
    ensures Shape(k, r'.c)
  {
    if n == 0 then FlushStep(k, r)
    else
      var m := Flushing(k, r, n - 1);
      if m.c.flushValid then FlushTick(k, m) else m
  }

  function FlushTicks(k: Config): nat {
    if FlushCount(k) == 0 then 65536 else FlushCount(k)
  }

  /** How far a flush has come after n of its ticks. */
  predicate FlushedTo(k: Config, m: Run, n: nat) {
    && (m.c.flushValid <==> n < FlushTicks(k))
    && (m.c.flushValid ==> m.c.flushSet == n && m.c.flushNum == (if n == 0 then FlushCount(k) else FlushTicks(k) - n))
  }

  lemma FlushedOne(k: Config, m: Run, n: nat)
    requires Shape(k, m.c) && n < FlushTicks(k) <= SetSize(k) && FlushedTo(k, m, n)
    ensures FlushedTo(k, FlushTick(k, m), n + 1) && FlushTick(k, m).h.log == m.h.log + [Flushed(n)]
  {}

  lemma TicksFit(k: Config)
    ensures FlushTicks(k) <= SetSize(k)
  {}

  lemma {:induction false} FlushProgress(k: Config, r: Run, n: nat)
    requires Shape(k, r.c) && n <= FlushTicks(k)
    ensures var m := Flushing(k, r, n);
      && FlushedTo(k, m, n) && |m.h.log| == |r.h.log| + n && m.h.log[..|r.h.log|] == r.h.log
      && (forall i :: 0 <= i < n ==> m.h.log[|r.h.log| + i] == Flushed(i))
  {
    if n > 0 {
      FlushProgress(k, r, n - 1);
      TicksFit(k);
      FlushedOne(k, Flushing(k, r, n - 1), n - 1);
    }
  }

  /** A flush that has run to its end has emptied every set exactly when its counter can hold
      the number of sets. */
  lemma FlushReachesAllSets(k: Config, r: Run)
    requires Shape(k, r.c)
    ensures var m := Flushing(k, r, FlushTicks(k));
      && !m.c.flushValid && |r.h.log| <= |m.h.log|
      && ((forall s :: 0 <= s < SetSize(k) ==> Flushed(s) in m.h.log[|r.h.log|..]) <==> FlushFits(k))
  {
    FlushProgress(k, r, FlushTicks(k));
    var m := Flushing(k, r, FlushTicks(k));
    var flushed := m.h.log[|r.h.log|..];
    assert forall i :: 0 <= i < |flushed| ==> flushed[i] == Flushed(i);
    if FlushFits(k) {
      forall s | 0 <= s < SetSize(k) ensures Flushed(s) in flushed {
        assert flushed[s] == Flushed(s);
      }
    } else {
      assert Flushed(FlushTicks(k)) !in flushed;
    }
  }
}
