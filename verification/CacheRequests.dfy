/** Requests and their lines: what a cache calls back for, what it asks the parent for, and which of its
    lines are dirty (src/cache/icache.cpp, src/cache/dcache.cpp). */
module CacheRequests {
  import opened CacheSpec
  import opened CacheProof
  import opened CacheLines

  // ---- the request being served ----

  /** Set and tag of request n. */
  function LineOf(k: Config, h: History, n: nat): (nat, nat)
    requires n < |h.asked|
  {
    Split(k, h.asked[n].addr)
  }

  /** A request has been looked up and is not finished. */
  predicate Busy(c: Cache) {
    c.state == Lookup || c.state == Miss
  }

  predicate ReqOk(k: Config, r: Run) {
    && |r.h.asked| == r.h.accepted
    && (r.c.idleValid ==> r.h.idleNo < |r.h.asked| && r.h.asked[r.h.idleNo] == r.c.idleReq)
    && (Busy(r.c) ==> r.h.reqNo < |r.h.asked| && r.h.asked[r.h.reqNo] == r.c.req && (r.c.index, r.c.tag) == LineOf(k, r.h, r.h.reqNo))
    && (r.c.state == Miss ==> r.h.line == (r.c.index, r.c.tag))
  }

  lemma HandleReq(k: Config, r: Run, redirects: bool)
    requires Inv(k, r) && ReqOk(k, r) && r.c.idleValid && Split(k, r.c.idleReq.addr).0 < |r.c.tags|
    ensures var r' := Handle(k, r, redirects);
      ReqOk(k, r'.(c := r'.c.(state := Lookup))) && (r'.c.state != Miss ==> ReqOk(k, r'))
  {}

  lemma TickReq(k: Config, r: Run, accepts: bool, way: nat, redirects: bool)
    requires Inv(k, r) && ReqOk(k, r) && Split(k, r.c.idleReq.addr).0 < |r.c.tags|
    ensures ReqOk(k, TickStep(k, r, accepts, way, redirects))
  {
    if r.c.idleValid {
      HandleReq(k, r, redirects);
    }
  }

  lemma NextReq(k: Config, r: Run, s: Step)
    requires Inv(k, r) && ReqOk(k, r) && Enabled(k, r, s)
    ensures ReqOk(k, Next(k, r, s))
  {
    match s
    case Ask(req) =>
    case Tick(accepts, way, redirects) =>
      SplitInRange(k, r.c.idleReq.addr);
      TickReq(k, r, accepts, way, redirects);
    case Answer(redirects) =>
    case Flush =>
    case Redirect =>
  }

  lemma {:induction false} EveryRunReq(k: Config, tags: seq<seq<Tagv>>, steps: seq<Step>)
    requires Empty(k, tags) && FlushFits(k) && Inv(k, Start(k, tags))
    ensures ReqOk(k, After(k, Start(k, tags), steps))
  {
    if |steps| > 0 {
      EveryRunReq(k, tags, steps[..|steps| - 1]);
      var m := After(k, Start(k, tags), steps[..|steps| - 1]);
      if Enabled(k, m, steps[|steps| - 1]) {
        NextReq(k, m, steps[|steps| - 1]);
      }
    }
  }

  // ---- hits and misses ----

  /** Some way of the set holds the line. */
  predicate Held(c: Cache, line: (nat, nat)) {
    line.0 < |c.tags| && !Absent(c.tags[line.0], line.1)
  }

  /** This tick takes the waiting request. */
  predicate Takes(k: Config, c: Cache) {
    c.idleValid && !c.flushValid && (c.state == Idle || (c.state == Lookup && c.hit && !(k.data && c.req.write)))
  }

  /** It is called back in this tick exactly if its line is held; if not, it is the one to ask for. */
  lemma TakenIff(k: Config, r: Run, s: Step)
    requires Inv(k, r) && ReqOk(k, r) && Enabled(k, r, s) && s.Tick? && Takes(k, r.c)
    ensures var r', n := Next(k, r, s), r.h.idleNo;
      && r'.h.log == r.h.log && r'.h.inflight == r.h.inflight && n < |r.h.asked|
      && r'.h.calls == (if Held(r.c, LineOf(k, r.h, n)) then r.h.calls + [n] else r.h.calls)
      && (!Held(r.c, LineOf(k, r.h, n)) ==> r'.c.state == Lookup && Waiting(r'.c) && r'.h.reqNo == n)
  {
    SplitInRange(k, r.c.idleReq.addr);
  }

  /** The parent is asked for the line of the request, as soon as it accepts and no abandoned answer
      is out. */
  lemma MissAsks(k: Config, r: Run, s: Step)
    requires Inv(k, r) && ReqOk(k, r) && Enabled(k, r, s) && s.Tick? && s.accepts
    requires r.c.state == Lookup && !r.c.hit && !r.c.clearWait && !r.c.flushValid
    ensures var r' := Next(k, r, s);
      r'.c.state == Miss && r'.h.inflight == r.h.inflight + 1 && r'.h.line == LineOf(k, r.h, r.h.reqNo) && r'.c.way == s.way
  {
    SplitInRange(k, r.c.idleReq.addr);
  }

  /** Every callback is for a request whose line is held, or is being filled by the very answer. */
  lemma CallStep(k: Config, r: Run, s: Step)
    requires Inv(k, r) && ReqOk(k, r) && Enabled(k, r, s) && |Next(k, r, s).h.calls| > |r.h.calls|
    ensures var r' := Next(k, r, s);
      var n := r'.h.calls[|r.h.calls|];
      && r'.h.calls == r.h.calls + [n] && n < |r.h.asked|
      && (if s.Tick? then n == r.h.idleNo && r'.h.log == r.h.log && Held(r.c, LineOf(k, r.h, n))
          else s.Answer? && n == r.h.reqNo && r'.h.log == r.h.log + [Filled(LineOf(k, r.h, n).0, r.c.way, LineOf(k, r.h, n).1)])
  {
    SplitInRange(k, r.c.idleReq.addr);
  }

  // ---- a missed request ----

  /** Nothing of request n is to come. */
  predicate Past(r: Run, n: nat) {
    n < r.h.accepted && (r.c.idleValid ==> r.h.idleNo > n) && (Waiting(r.c) ==> r.h.reqNo > n)
  }

  predicate Missed(r: Run, n: nat) {
    Waiting(r.c) && r.h.reqNo == n && !r.c.idleValid && n < r.h.accepted
  }

  lemma PastStays(k: Config, r: Run, s: Step, n: nat)
    requires Inv(k, r) && Enabled(k, r, s) && Past(r, n)
    ensures var r' := Next(k, r, s); Past(r', n) && (|r'.h.calls| > |r.h.calls| ==> r'.h.calls[|r.h.calls|] > n)
  {
    SplitInRange(k, r.c.idleReq.addr);
  }

  lemma MissedGoes(k: Config, r: Run, s: Step, n: nat)
    requires Inv(k, r) && ReqOk(k, r) && Enabled(k, r, s) && Missed(r, n)
    ensures var r' := Next(k, r, s);
      && (Missed(r', n) || Past(r', n))
      && (|r'.h.calls| > |r.h.calls| ==>
            Past(r', n) && r'.h.log == r.h.log + [Filled(LineOf(k, r.h, n).0, r.c.way, LineOf(k, r.h, n).1)])
  {
    SplitInRange(k, r.c.idleReq.addr);
  }

  /** The line has been filled since the log had `from` events. */
  predicate FilledSince(log: seq<Event>, from: nat, line: (nat, nat)) {
    exists j :: from <= j < |log| && IsFill(log[j], line)
  }

  predicate IsFill(e: Event, line: (nat, nat)) {
    e.Filled? && e.index == line.0 && e.tag == line.1
  }

  lemma LogGrows(k: Config, r: Run, s: Step)
    requires Inv(k, r) && Enabled(k, r, s)
    ensures var r' := Next(k, r, s);
      && |r.h.log| <= |r'.h.log| && r'.h.log[..|r.h.log|] == r.h.log
      && |r.h.asked| <= |r'.h.asked| && r'.h.asked[..|r.h.asked|] == r.h.asked
      && |r.h.calls| <= |r'.h.calls| <= |r.h.calls| + 1 && r'.h.calls[..|r.h.calls|] == r.h.calls
  {
    SplitInRange(k, r.c.idleReq.addr);
  }

  /** Where request n stands: still missed and not called since, or done with, and called only after its
      line was filled. */
  ghost predicate Follows(r: Run, m: Run, n: nat, line: (nat, nat)) {
    && |r.h.log| <= |m.h.log| && |r.h.calls| <= |m.h.calls|
    && (Missed(m, n) || Past(m, n))
    && (forall i :: |r.h.calls| <= i < |m.h.calls| && m.h.calls[i] == n ==> FilledSince(m.h.log, |r.h.log|, line) && Past(m, n))
  }

  lemma FollowStep(k: Config, r: Run, m: Run, s: Step, n: nat, line: (nat, nat))
    requires Inv(k, m) && ReqOk(k, m) && Enabled(k, m, s) && Follows(r, m, n, line) && n < |m.h.asked| && LineOf(k, m.h, n) == line
    ensures Follows(r, Next(k, m, s), n, line)
  {
    var m' := Next(k, m, s);
    LogGrows(k, m, s);
    if Missed(m, n) {
      MissedGoes(k, m, s, n);
      if |m'.h.calls| > |m.h.calls| {
        assert IsFill(m'.h.log[|m.h.log|], line);
      }
    } else {
      PastStays(k, m, s, n);
    }
    if FilledSince(m.h.log, |r.h.log|, line) {
      var j :| |r.h.log| <= j < |m.h.log| && IsFill(m.h.log[j], line);
      assert m'.h.log[..|m.h.log|][j] == m'.h.log[j];
    }
    forall i | |r.h.calls| <= i < |m'.h.calls| && m'.h.calls[i] == n
      ensures FilledSince(m'.h.log, |r.h.log|, line) && Past(m', n)
    {
      if i < |m.h.calls| {
        assert m'.h.calls[..|m.h.calls|][i] == m.h.calls[i];
      }
    }
  }

  lemma {:induction false} FollowRun(k: Config, r: Run, steps: seq<Step>, n: nat)
    requires Inv(k, r) && ReqOk(k, r) && Missed(r, n)
    ensures ReqOk(k, After(k, r, steps)) && n < |r.h.asked| <= |After(k, r, steps).h.asked|
    ensures LineOf(k, After(k, r, steps).h, n) == LineOf(k, r.h, n)
    ensures Follows(r, After(k, r, steps), n, LineOf(k, r.h, n))
  {
    if |steps| > 0 {
      var front, s := steps[..|steps| - 1], steps[|steps| - 1];
      FollowRun(k, r, front, n);
      var m := After(k, r, front);
      if Enabled(k, m, s) {
        NextReq(k, m, s);
        LogGrows(k, m, s);
        assert Next(k, m, s).h.asked[..|m.h.asked|][n] == Next(k, m, s).h.asked[n];
        FollowStep(k, r, m, s, n, LineOf(k, r.h, n));
      }
    }
  }

  /** A request that missed is never called back before its line has been filled, whatever comes. */
  lemma MissedWaitsForItsLine(k: Config, r: Run, steps: seq<Step>, n: nat)
    requires Inv(k, r) && ReqOk(k, r) && Missed(r, n)
    ensures n < |r.h.asked|
    ensures var m := After(k, r, steps);
      forall i :: |r.h.calls| <= i < |m.h.calls| && m.h.calls[i] == n ==> FilledSince(m.h.log, |r.h.log|, LineOf(k, r.h, n))
  {
    FollowRun(k, r, steps, n);
  }

  // ---- in terms of what happened ----

  lemma HeldIsFound(k: Config, c: Cache, line: (nat, nat))
    requires Shape(k, c) && line.0 < |c.tags|
    ensures Held(c, line) <==> FindWay(c.tags[line.0], line.1, 0).Some?
  {}

  /** In the runs in which tags stay unique: a tick that takes a request calls it back exactly if its line
      was filled and neither replaced nor flushed since; otherwise the request has missed. */
  lemma RequestsHitResidentLines(k: Config, tags: seq<seq<Tagv>>, steps: seq<Step>, s: Step)
    requires Empty(k, tags) && FlushFits(k) && Inv(k, Start(k, tags)) && CalmRun(k, Start(k, tags), steps)
    requires s.Tick? && Enabled(k, After(k, Start(k, tags), steps), s) && Takes(k, After(k, Start(k, tags), steps).c)
    ensures var r := After(k, Start(k, tags), steps);
      var r', n := Next(k, r, s), r.h.idleNo;
      && n < |r.h.asked|
      && (var line := LineOf(k, r.h, n);
          if Resident(r.h.log, line.0, line.1) then r'.h.calls == r.h.calls + [n]
          else r'.h.calls == r.h.calls && Missed(r', n))
  {
    var r := After(k, Start(k, tags), steps);
    EveryRunReq(k, tags, steps);
    TakenIff(k, r, s);
    HitsResidentLines(k, tags, steps, r.h.asked[r.h.idleNo].addr);
    HeldIsFound(k, r.c, LineOf(k, r.h, r.h.idleNo));
    TakenIsMissed(k, r, s);
  }

  lemma TakenIsMissed(k: Config, r: Run, s: Step)
    requires Inv(k, r) && ReqOk(k, r) && Enabled(k, r, s) && s.Tick? && Takes(k, r.c)
    ensures Waiting(Next(k, r, s).c) ==> Missed(Next(k, r, s), r.h.idleNo)
  {
    SplitInRange(k, r.c.idleReq.addr);
  }

  // ---- and then the next ----

  /** A cache that has delivered a line, or marked a write, takes requests again after one tick; one that
      has called back a read takes them at once. */
  lemma SoonFree(k: Config, r: Run, s: Step)
    requires Inv(k, r) && Enabled(k, r, s) && s.Tick? && !r.c.flushValid
    ensures r.c.state == Write || r.c.state == Refill ==> Accepts(k, Next(k, r, s).c)
    ensures Takes(k, r.c) && |Next(k, r, s).h.calls| > |r.h.calls| && !(k.data && r.c.idleReq.write) ==> Accepts(k, Next(k, r, s).c)
  {
    SplitInRange(k, r.c.idleReq.addr);
  }

  /** A request accepted is taken in the next tick, if no flush comes first. */
  lemma AcceptedIsTaken(k: Config, r: Run, req: Req)
    requires Inv(k, r) && ReqOk(k, r) && Accepts(k, r.c)
    ensures var r' := Next(k, r, Ask(req));
      Takes(k, r'.c) && r'.h.asked == r.h.asked + [req] && r'.h.idleNo == |r.h.asked| && r'.c.idleReq == req
  {}

  /** And none is refused that would be. */
  lemma RefusedWouldWait(k: Config, r: Run, req: Req)
    requires Inv(k, r) && !Accepts(k, r.c)
    ensures Next(k, r, Ask(req)) == r && !Takes(k, r.c.(idleReq := req, idleValid := true))
  {}
}
