/** Which lines of the data cache are dirty: those written since they were filled, or filled by a write
    (src/cache/dcache.cpp, lines 4-16 and 44-83). */
module CacheDirty {
  import opened CacheSpec
  import opened CacheProof
  import opened CacheLines
  import opened CacheRequests

  /** A write of the line, called back after event number `from` of the log. */
  predicate IsWrite(e: Store, s: nat, tag: nat, from: int) {
    e.index == s && e.tag == tag && e.at > from
  }

  predicate WrittenSince(wrote: seq<Store>, s: nat, tag: nat, from: int) {
    exists j :: 0 <= j < |wrote| && IsWrite(wrote[j], s, tag, from)
  }

  lemma WroteMore(wrote: seq<Store>, e: Store, s: nat, tag: nat, from: int)
    ensures WrittenSince(wrote + [e], s, tag, from) <==> WrittenSince(wrote, s, tag, from) || IsWrite(e, s, tag, from)
  {
    var more := wrote + [e];
    if WrittenSince(wrote, s, tag, from) {
      var j :| 0 <= j < |wrote| && IsWrite(wrote[j], s, tag, from);
      assert more[j] == wrote[j];
    }
    if IsWrite(e, s, tag, from) {
      assert more[|wrote|] == e;
    }
  }

  /** A write has hit this way and will mark it in the next tick. */
  predicate ToMark(c: Cache, s: nat, w: nat) {
    c.state == Lookup && c.hit && c.req.write && c.index == s && c.hitWay == w
  }

  /** Marked, or about to be, exactly if written since the fill. */
  predicate MarkOk(c: Cache, h: History, s: nat, w: nat)
    requires s < |c.tags| && w < |c.tags[s]|
  {
    var t := c.tags[s][w];
    t.valid ==>
      (t.dirty || ToMark(c, s, w) <==> WrittenSince(h.wrote, s, t.tag, LastFill(h.log, s, w)))
  }

  ghost predicate DirtyOk(k: Config, r: Run)
    requires Shape(k, r.c)
  {
    && (forall s, w :: 0 <= s < |r.c.tags| && 0 <= w < |r.c.tags[s]| ==> MarkOk(r.c, r.h, s, w))
    && (forall j :: 0 <= j < |r.h.wrote| ==> r.h.wrote[j].at <= |r.h.log|)
    && (r.c.state == Lookup && r.c.hit && r.c.tags[r.c.index][r.c.hitWay].valid ==> r.c.tags[r.c.index][r.c.hitWay].tag == r.c.tag)
  }

  /** No redirect comes while a line is being fetched, or between a write and its mark. */
  predicate CalmWrite(r: Run, s: Step) {
    Calm(r, s) && (s == Redirect ==> !(r.c.state == Lookup && r.c.hit && r.c.req.write))
  }

  // ---- every step ----

  /** Nothing that matters to marks has changed. */
  ghost predicate SameMarks(r: Run, r': Run) {
    && r'.c.tags == r.c.tags && r'.h.log == r.h.log && r'.h.wrote == r.h.wrote
    && (forall s, w :: ToMark(r'.c, s, w) <==> ToMark(r.c, s, w))
    && (r'.c.state == Lookup && r'.c.hit ==> r'.c.index == r.c.index && r'.c.hitWay == r.c.hitWay && r'.c.tag == r.c.tag)
    && (r'.c.state == Lookup && r'.c.hit ==> r.c.state == Lookup && r.c.hit)
  }

  lemma SameMarksOk(k: Config, r: Run, r': Run)
    requires Shape(k, r.c) && Shape(k, r'.c) && DirtyOk(k, r) && SameMarks(r, r')
    ensures DirtyOk(k, r')
  {
    forall s, w | 0 <= s < |r'.c.tags| && 0 <= w < |r'.c.tags[s]| ensures MarkOk(r'.c, r'.h, s, w) {
      assert MarkOk(r.c, r.h, s, w);
    }
  }

  /** A hit: a write is noted and its way about to be marked. */
  lemma HitMarks(k: Config, r: Run, r': Run, w0: nat, n: nat)
    requires Inv(k, r) && LinesOk(k, r) && DirtyOk(k, r) && n < |r.h.asked| && Shape(k, r'.c)
    requires !(r.c.state == Lookup && r.c.hit && r.c.req.write)
    requires r'.c.tags == r.c.tags && r'.h == Called(k, r.h.(reqNo := n), n)
    requires var line := LineOf(k, r.h, n);
      && line.0 < |r.c.tags| && w0 < |r.c.tags[line.0]| && r.c.tags[line.0][w0].valid && r.c.tags[line.0][w0].tag == line.1
      && (r'.c.state == Lookup && r'.c.hit && r'.c.hitWay == w0 && (r'.c.index, r'.c.tag) == line)
      && r'.c.req == r.h.asked[n]
    ensures DirtyOk(k, r')
  {
    var (s0, t0) := LineOf(k, r.h, n);
    forall s, w | 0 <= s < |r'.c.tags| && 0 <= w < |r'.c.tags[s]| ensures MarkOk(r'.c, r'.h, s, w) {
      assert MarkOk(r.c, r.h, s, w);
      assert Unique(r.c.tags[s]);
      WroteMore(r.h.wrote, Store(|r.h.log|, s0, t0), s, r.c.tags[s][w].tag, LastFill(r.h.log, s, w));
    }
  }

  lemma HandleMarks(k: Config, r: Run)
    requires Inv(k, r) && ReqOk(k, r) && LinesOk(k, r) && DirtyOk(k, r) && Split(k, r.c.idleReq.addr).0 < |r.c.tags|
    requires Takes(k, r.c) && k.data
    requires Shape(k, Handle(k, r, false).c)
    ensures var r' := Handle(k, r, false); DirtyOk(k, r'.(c := r'.c.(state := Lookup)))
  {
    var r' := Handle(k, r, false);
    var r'' := r'.(c := r'.c.(state := Lookup));
    if r'.c.hit {
      HitMarks(k, r, r'', r'.c.hitWay, r.h.idleNo);
    } else {
      SameMarksOk(k, r, r'');
    }
  }

  /** The mark is set. */
  lemma WriteMarks(k: Config, r: Run)
    requires Inv(k, r) && LinesOk(k, r) && DirtyOk(k, r) && k.data && r.c.state == Lookup && r.c.hit && r.c.req.write
    ensures var row := r.c.tags[r.c.index];
      var c := r.c.(state := Write, tags := r.c.tags[r.c.index := row[r.c.hitWay := row[r.c.hitWay].(dirty := true)]]);
      Shape(k, c) && DirtyOk(k, Run(c, r.h))
  {
    var row := r.c.tags[r.c.index];
    var c := r.c.(state := Write, tags := r.c.tags[r.c.index := row[r.c.hitWay := row[r.c.hitWay].(dirty := true)]]);
    forall s, w | 0 <= s < |c.tags| && 0 <= w < |c.tags[s]| ensures MarkOk(c, r.h, s, w) {
      assert MarkOk(r.c, r.h, s, w);
    }
  }

  lemma FlushMarks(k: Config, r: Run)
    requires Inv(k, r) && DirtyOk(k, r) && r.c.flushValid
    ensures Shape(k, FlushTick(k, r).c) && DirtyOk(k, FlushTick(k, r))
  {
    FlushTickInv(k, r);
    var r' := FlushTick(k, r);
    forall s, w | 0 <= s < |r'.c.tags| && 0 <= w < |r'.c.tags[s]| ensures MarkOk(r'.c, r'.h, s, w) {
      assert MarkOk(r.c, r.h, s, w);
      LastFillMore(r.h.log, Flushed(r.c.flushSet), s, w);
    }
  }

  lemma NoneSince(wrote: seq<Store>, s: nat, tag: nat, n: nat)
    requires forall j :: 0 <= j < |wrote| ==> wrote[j].at <= n
    ensures !WrittenSince(wrote, s, tag, n)
  {}

  /** A fill: the way is marked exactly if the request is a write, which is noted. */
  lemma AnswerMarks(k: Config, r: Run)
    requires Inv(k, r) && ReqOk(k, r) && LinesOk(k, r) && DirtyOk(k, r) && 0 < r.h.inflight && k.data
    requires Shape(k, AnswerStep(k, r, false).c)
    ensures DirtyOk(k, AnswerStep(k, r, false))
  {
    var r' := AnswerStep(k, r, false);
    var e, note := Filled(r.c.index, r.c.way, r.c.tag), Store(|r.h.log| + 1, r.c.index, r.c.tag);
    assert r'.h.log == r.h.log + [e];
    assert r'.h.wrote == if r.c.req.write then r.h.wrote + [note] else r.h.wrote;
    assert Absent(r.c.tags[r.c.index], r.c.tag);
    forall s, w | 0 <= s < |r'.c.tags| && 0 <= w < |r'.c.tags[s]| ensures MarkOk(r'.c, r'.h, s, w) {
      assert MarkOk(r.c, r.h, s, w);
      LastFillMore(r.h.log, e, s, w);
      WroteMore(r.h.wrote, note, s, r'.c.tags[s][w].tag, LastFill(r'.h.log, s, w));
      if s == r.c.index && w == r.c.way {
        NoneSince(r.h.wrote, s, r.c.tag, |r.h.log|);
      }
    }
  }

  /** A tick without a flush. */
  lemma TickMarks(k: Config, r: Run, accepts: bool, way: nat)
    requires Inv(k, r) && ReqOk(k, r) && LinesOk(k, r) && DirtyOk(k, r) && k.data && way < k.ways && !r.c.flushValid
    requires Split(k, r.c.idleReq.addr).0 < |r.c.tags|
    requires Shape(k, TickStep(k, r, accepts, way, false).c)
    ensures DirtyOk(k, TickStep(k, r, accepts, way, false))
  {
    var r' := TickStep(k, r, accepts, way, false);
    if Takes(k, r.c) {
      HandleKeeps(k, r, false);
      HandleMarks(k, r);
    } else if r.c.state == Lookup && r.c.hit && r.c.req.write {
      WriteMarks(k, r);
    } else {
      SameMarksOk(k, r, r');
    }
  }

  lemma NextMarks(k: Config, r: Run, s: Step)
    requires Inv(k, r) && ReqOk(k, r) && LinesOk(k, r) && DirtyOk(k, r) && k.data && Enabled(k, r, s) && CalmWrite(r, s)
    ensures Shape(k, Next(k, r, s).c) && DirtyOk(k, Next(k, r, s))
  {
    NextKeeps(k, r, s);
    match s
    case Ask(req) => SameMarksOk(k, r, Next(k, r, s));
    case Tick(accepts, way, redirects) =>
      if r.c.flushValid {
        FlushMarks(k, r);
      } else {
        SplitInRange(k, r.c.idleReq.addr);
        TickMarks(k, r, accepts, way);
      }
    case Answer(redirects) => AnswerMarks(k, r);
    case Flush => SameMarksOk(k, r, Next(k, r, s));
    case Redirect => SameMarksOk(k, r, Next(k, r, s));
  }

  // ---- the result ----

  ghost predicate CalmWriteRun(k: Config, r: Run, steps: seq<Step>)
    requires Inv(k, r)
  {
    forall i :: 0 <= i < |steps| ==> CalmWrite(After(k, r, steps[..i]), steps[i])
  }

  lemma StartMarks(k: Config, tags: seq<seq<Tagv>>)
    requires Empty(k, tags) && FlushFits(k)
    ensures DirtyOk(k, Start(k, tags))
  {}

  lemma {:induction false} EveryRunMarks(k: Config, tags: seq<seq<Tagv>>, steps: seq<Step>)
    requires Empty(k, tags) && FlushFits(k) && Inv(k, Start(k, tags)) && CalmWriteRun(k, Start(k, tags), steps) && k.data
    ensures CalmRun(k, Start(k, tags), steps) && DirtyOk(k, After(k, Start(k, tags), steps))
  {
    forall i | 0 <= i < |steps| ensures Calm(After(k, Start(k, tags), steps[..i]), steps[i]) {
      assert CalmWrite(After(k, Start(k, tags), steps[..i]), steps[i]);
    }
    if |steps| == 0 {
      StartMarks(k, tags);
    } else {
      var front := steps[..|steps| - 1];
      forall i | 0 <= i < |front| ensures CalmWrite(After(k, Start(k, tags), front[..i]), front[i]) {
        assert front[..i] == steps[..i];
        assert CalmWrite(After(k, Start(k, tags), steps[..i]), steps[i]);
      }
      EveryRunMarks(k, tags, front);
      EveryRunLines(k, tags, front);
      EveryRunReq(k, tags, front);
      var m := After(k, Start(k, tags), front);
      assert CalmWrite(m, steps[|front|]);
      if Enabled(k, m, steps[|front|]) {
        NextMarks(k, m, steps[|front|]);
      }
    }
  }

  /** A valid way is dirty exactly if a write of its line has been called back since it was filled, or by
      the filling; the mark follows the callback of a hit by one tick.  (The redirects left out are those
      that make a line land under a wrong tag, and those that come in that one tick.) */
  lemma DirtyIsWritten(k: Config, tags: seq<seq<Tagv>>, steps: seq<Step>, s: nat, w: nat)
    requires Empty(k, tags) && FlushFits(k) && Inv(k, Start(k, tags)) && CalmWriteRun(k, Start(k, tags), steps) && k.data
    requires s < SetSize(k) && w < k.ways
    ensures var r := After(k, Start(k, tags), steps);
      var t := r.c.tags[s][w];
      t.valid ==> (t.dirty || ToMark(r.c, s, w) <==> WrittenSince(r.h.wrote, s, t.tag, LastFill(r.h.log, s, w)))
  {
    EveryRunMarks(k, tags, steps);
    assert MarkOk(After(k, Start(k, tags), steps).c, After(k, Start(k, tags), steps).h, s, w);
  }

  /** A redirect in that tick takes the write back from the cache, though its callback has gone out. */
  lemma RedirectedWriteIsNotMarked(k: Config, r: Run)
    requires Inv(k, r) && r.c.state == Lookup && r.c.hit && r.c.req.write
    ensures var r' := Next(k, r, Redirect); r'.c.tags == r.c.tags && r'.c.state == Idle && r'.h.wrote == r.h.wrote
  {}
}
