/** Which lines a cache holds: a request hits exactly when its line was filled and neither replaced
    nor flushed since, unless a redirect comes while a line is being fetched. */
module CacheLines {
  import opened CacheSpec
  import opened CacheProof

  /** Where way w of set s was last filled, if it was not flushed since; else -1. */
  function LastFill(log: seq<Event>, s: nat, w: nat): (i: int)
    ensures -1 <= i < |log|
    ensures i >= 0 ==> log[i].Filled? && log[i].index == s && log[i].way == w
  {
    if |log| == 0 then -1
    else
      match log[|log| - 1]
      case Filled(s', w', _) => if s' == s && w' == w then |log| - 1 else LastFill(log[..|log| - 1], s, w)
      case Flushed(s') => if s' == s then -1 else LastFill(log[..|log| - 1], s, w)
  }

  /** An event after which way w of set s no longer holds what it held. */
  predicate Evicts(e: Event, s: nat, w: nat) {
    e.index == s && (e.Flushed? || e.way == w)
  }

  /** The line was filled, and neither replaced nor flushed since. */
  predicate Resident(log: seq<Event>, s: nat, tag: nat) {
    exists i :: 0 <= i < |log| && FilledAndKept(log, s, tag, i)
  }

  predicate FilledAndKept(log: seq<Event>, s: nat, tag: nat, i: nat)
    requires i < |log|
  {
    && log[i].Filled? && log[i].index == s && log[i].tag == tag
    && forall j :: i < j < |log| ==> !Evicts(log[j], s, log[i].way)
  }

  lemma {:induction false} LastFillIsKept(log: seq<Event>, s: nat, w: nat, i: nat)
    requires i < |log|
    ensures LastFill(log, s, w) == i <==>
      log[i].Filled? && log[i].index == s && log[i].way == w && forall j :: i < j < |log| ==> !Evicts(log[j], s, w)
  {
    if i < |log| - 1 {
      LastFillIsKept(log[..|log| - 1], s, w, i);
      assert log[..|log| - 1][i] == log[i];
    }
  }

  /** Valid ways are the filled ones, with the tags that were filled in. */
  ghost predicate TagsOk(c: Cache, h: History) {
    forall s, w :: 0 <= s < |c.tags| && 0 <= w < |c.tags[s]| ==> WayOk(c.tags[s][w], h.log, s, w)
  }

  predicate WayOk(t: Tagv, log: seq<Event>, s: nat, w: nat) {
    var i := LastFill(log, s, w);
    && (t.valid <==> i >= 0)
    && (t.valid ==> t.tag == log[i].tag)
  }

  predicate Absent(row: seq<Tagv>, tag: nat) {
    forall w :: 0 <= w < |row| ==> !(row[w].valid && row[w].tag == tag)
  }

  predicate Unique(row: seq<Tagv>) {
    forall v, w :: 0 <= v < |row| && 0 <= w < |row| && row[v].valid && row[w].valid && row[v].tag == row[w].tag ==> v == w
  }

  /** Sets the last flush has passed hold only what was filled after it began. */
  predicate FlushedOk(c: Cache, h: History) {
    && h.flushStart <= |h.log|
    && forall s, w :: 0 <= s < (if c.flushValid then c.flushSet else |c.tags|) && s < |c.tags| && 0 <= w < |c.tags[s]| && c.tags[s][w].valid ==>
      LastFill(h.log, s, w) >= h.flushStart
  }

  ghost predicate LinesOk(k: Config, r: Run)
    requires Shape(k, r.c)
  {
    && TagsOk(r.c, r.h)
    && (forall s :: 0 <= s < |r.c.tags| ==> Unique(r.c.tags[s]))
    && (Waiting(r.c) ==> Absent(r.c.tags[r.c.index], r.c.tag))
    && (r.h.inflight == 1 ==> r.c.state == Miss && r.h.line == (r.c.index, r.c.tag))
    && FlushedOk(r.c, r.h)
    && (forall i :: 0 <= i < |r.h.log| && r.h.log[i].Filled? ==> r.h.log[i].way < k.ways)
  }

  /** Callbacks may redirect, others only while no parent request is out. */
  predicate Calm(r: Run, s: Step) {
    s == Redirect ==> r.h.inflight == 0
  }

  /** In every step of the run. */
  ghost predicate CalmRun(k: Config, r: Run, steps: seq<Step>)
    requires Inv(k, r)
  {
    forall i :: 0 <= i < |steps| ==> Calm(After(k, r, steps[..i]), steps[i])
  }

  lemma StartLines(k: Config, tags: seq<seq<Tagv>>)
    requires Empty(k, tags) && FlushFits(k)
    ensures LinesOk(k, Start(k, tags))
  {}

  // ---- filling and flushing ----

  lemma LastFillMore(log: seq<Event>, e: Event, s: nat, w: nat)
    ensures LastFill(log + [e], s, w) ==
      if !Evicts(e, s, w) then LastFill(log, s, w) else if e.Filled? then |log| else -1
  {
    assert (log + [e])[..|log|] == log;
  }

  lemma FlushTickKeeps(k: Config, r: Run)
    requires Inv(k, r) && LinesOk(k, r) && r.c.flushValid
    ensures LinesOk(k, FlushTick(k, r))
  {
    var r' := FlushTick(k, r);
    forall s, w | 0 <= s < |r'.c.tags| && 0 <= w < |r'.c.tags[s]|
      ensures WayOk(r'.c.tags[s][w], r'.h.log, s, w)
      ensures LastFill(r'.h.log, s, w) == if s == r.c.flushSet then -1 else LastFill(r.h.log, s, w)
    {
      LastFillMore(r.h.log, Flushed(r.c.flushSet), s, w);
      assert WayOk(r.c.tags[s][w], r.h.log, s, w);
    }
    forall s | 0 <= s < |r'.c.tags| ensures Unique(r'.c.tags[s]) {
      assert Unique(r.c.tags[s]);
    }
  }

  lemma AnswerTags(k: Config, r: Run, redirects: bool)
    requires Inv(k, r) && TagsOk(r.c, r.h) && 0 < r.h.inflight && r.h.line == (r.c.index, r.c.tag)
    ensures var r' := AnswerStep(k, r, redirects); TagsOk(r'.c, r'.h)
    ensures var log' := AnswerStep(k, r, redirects).h.log;
      forall s, w :: LastFill(log', s, w) == if s == r.c.index && w == r.c.way then |r.h.log| else LastFill(r.h.log, s, w)
  {
    var r' := AnswerStep(k, r, redirects);
    var e := Filled(r.c.index, r.c.way, r.c.tag);
    assert r'.h.log == r.h.log + [e];
    forall s, w
      ensures LastFill(r'.h.log, s, w) == if s == r.c.index && w == r.c.way then |r.h.log| else LastFill(r.h.log, s, w)
    {
      LastFillMore(r.h.log, e, s, w);
    }
    forall s, w | 0 <= s < |r'.c.tags| && 0 <= w < |r'.c.tags[s]| ensures WayOk(r'.c.tags[s][w], r'.h.log, s, w) {
      assert WayOk(r.c.tags[s][w], r.h.log, s, w);
    }
  }

  lemma AnswerFlushed(k: Config, r: Run, redirects: bool)
    requires Inv(k, r) && FlushedOk(r.c, r.h) && 0 < r.h.inflight
    requires var log' := AnswerStep(k, r, redirects).h.log;
      forall s, w :: LastFill(log', s, w) == if s == r.c.index && w == r.c.way then |r.h.log| else LastFill(r.h.log, s, w)
    ensures var r' := AnswerStep(k, r, redirects); FlushedOk(r'.c, r'.h)
  {}

  lemma AnswerKeeps(k: Config, r: Run, redirects: bool)
    requires Inv(k, r) && LinesOk(k, r) && 0 < r.h.inflight && (redirects ==> !k.data)
    ensures Shape(k, AnswerStep(k, r, redirects).c) && LinesOk(k, AnswerStep(k, r, redirects))
  {
    AnswerKeepsInv(k, r, redirects);
    AnswerTags(k, r, redirects);
    AnswerFlushed(k, r, redirects);
    AnswerUnique(k, r, redirects);
  }

  lemma AnswerUnique(k: Config, r: Run, redirects: bool)
    requires Inv(k, r) && LinesOk(k, r) && 0 < r.h.inflight
    ensures var r' := AnswerStep(k, r, redirects);
      forall s :: 0 <= s < |r'.c.tags| ==> Unique(r'.c.tags[s])
  {
    var r' := AnswerStep(k, r, redirects);
    forall s | 0 <= s < |r'.c.tags| ensures Unique(r'.c.tags[s]) {
      assert Unique(r.c.tags[s]);
    }
  }

  lemma HandleLines(k: Config, r: Run, redirects: bool)
    requires Inv(k, r) && LinesOk(k, r) && Split(k, r.c.idleReq.addr).0 < |r.c.tags|
    requires r.c.state == Idle || r.c.state == Lookup
    ensures var r' := Handle(k, r, redirects);
      LinesOk(k, r') && LinesOk(k, r'.(c := r'.c.(state := Lookup)))
  {}

  predicate SameLine(a: Tagv, b: Tagv) {
    a.valid == b.valid && a.tag == b.tag
  }

  lemma DirtyLines(k: Config, r: Run)
    requires Inv(k, r) && LinesOk(k, r) && r.c.state == Lookup && r.c.hit
    ensures var row := r.c.tags[r.c.index];
      var c := r.c.(state := Write, tags := r.c.tags[r.c.index := row[r.c.hitWay := row[r.c.hitWay].(dirty := true)]]);
      LinesOk(k, Run(c, r.h))
  {
    var row := r.c.tags[r.c.index];
    var tags := r.c.tags[r.c.index := row[r.c.hitWay := row[r.c.hitWay].(dirty := true)]];
    forall s, w | 0 <= s < |tags| && 0 <= w < |tags[s]|
      ensures SameLine(tags[s][w], r.c.tags[s][w])
      ensures WayOk(tags[s][w], r.h.log, s, w)
    {
      assert WayOk(r.c.tags[s][w], r.h.log, s, w);
    }
    forall s | 0 <= s < |tags| ensures Unique(tags[s]) {
      assert Unique(r.c.tags[s]);
    }
  }

  lemma NextLines(k: Config, r: Run, s: Step)
    requires Inv(k, r) && LinesOk(k, r) && Enabled(k, r, s) && Calm(r, s)
    ensures Shape(k, Next(k, r, s).c) && LinesOk(k, Next(k, r, s))
  {
    NextKeeps(k, r, s);
    match s
    case Ask(req) =>
    case Tick(accepts, way, redirects) =>
      if r.c.flushValid {
        FlushTickKeeps(k, r);
      } else {
        SplitInRange(k, r.c.idleReq.addr);
        TickLines(k, r, accepts, way, redirects);
      }
    case Answer(redirects) => AnswerKeeps(k, r, redirects);
    case Flush =>
    case Redirect =>
  }

  lemma TickLines(k: Config, r: Run, accepts: bool, way: nat, redirects: bool)
    requires Inv(k, r) && LinesOk(k, r) && way < k.ways && !r.c.flushValid
    requires Split(k, r.c.idleReq.addr).0 < |r.c.tags|
    requires Shape(k, TickStep(k, r, accepts, way, redirects).c)
    ensures LinesOk(k, TickStep(k, r, accepts, way, redirects))
  {
    if r.c.state == Idle || r.c.state == Lookup {
      HandleLines(k, r, redirects);
    }
    if r.c.state == Lookup && r.c.hit {
      DirtyLines(k, r);
    }
  }

  lemma {:induction false} EveryRunLines(k: Config, tags: seq<seq<Tagv>>, steps: seq<Step>)
    requires Empty(k, tags) && FlushFits(k) && Inv(k, Start(k, tags)) && CalmRun(k, Start(k, tags), steps)
    ensures LinesOk(k, After(k, Start(k, tags), steps))
  {
    if |steps| == 0 {
      StartLines(k, tags);
    } else {
      var front := steps[..|steps| - 1];
      forall i | 0 <= i < |front| ensures Calm(After(k, Start(k, tags), front[..i]), front[i]) {
        assert front[..i] == steps[..i];
        assert Calm(After(k, Start(k, tags), steps[..i]), steps[i]);
      }
      EveryRunLines(k, tags, front);
      var m := After(k, Start(k, tags), front);
      assert Calm(m, steps[|front|]);
      if Enabled(k, m, steps[|front|]) {
        NextLines(k, m, steps[|front|]);
      }
    }
  }

  // ---- the results ----

  /** No set ever holds two valid ways with one tag. */
  lemma TagsStayUnique(k: Config, tags: seq<seq<Tagv>>, steps: seq<Step>, s: nat, v: nat, w: nat)
    requires Empty(k, tags) && FlushFits(k) && Inv(k, Start(k, tags)) && CalmRun(k, Start(k, tags), steps)
    requires s < SetSize(k) && v < k.ways && w < k.ways && v != w
    ensures var row := After(k, Start(k, tags), steps).c.tags[s];
      row[v].valid && row[w].valid ==> row[v].tag != row[w].tag
  {
    EveryRunLines(k, tags, steps);
    assert Unique(After(k, Start(k, tags), steps).c.tags[s]);
  }

  /** A request hits exactly when its line was filled and neither replaced nor flushed since. */
  lemma HitsResidentLines(k: Config, tags: seq<seq<Tagv>>, steps: seq<Step>, addr: nat)
    requires Empty(k, tags) && FlushFits(k) && Inv(k, Start(k, tags)) && CalmRun(k, Start(k, tags), steps)
    ensures Split(k, addr).0 < SetSize(k)
    ensures var r := After(k, Start(k, tags), steps);
      var (s, tag) := Split(k, addr);
      FindWay(r.c.tags[s], tag, 0).Some? <==> Resident(r.h.log, s, tag)
  {
    EveryRunLines(k, tags, steps);
    SplitInRange(k, addr);
    var r := After(k, Start(k, tags), steps);
    var (s, tag) := Split(k, addr);
    var m := FindWay(r.c.tags[s], tag, 0);
    if m.Some? {
      assert WayOk(r.c.tags[s][m.value], r.h.log, s, m.value);
      var i := LastFill(r.h.log, s, m.value);
      LastFillIsKept(r.h.log, s, m.value, i);
      assert FilledAndKept(r.h.log, s, tag, i);
    }
    if Resident(r.h.log, s, tag) {
      var i :| 0 <= i < |r.h.log| && FilledAndKept(r.h.log, s, tag, i);
      ResidentIsValid(k, r, s, i);
    }
  }

  lemma ResidentIsValid(k: Config, r: Run, s: nat, i: nat)
    requires Inv(k, r) && LinesOk(k, r) && s < |r.c.tags| && i < |r.h.log| && r.h.log[i].Filled?
    requires FilledAndKept(r.h.log, s, r.h.log[i].tag, i) && r.h.log[i].way < k.ways
    ensures r.c.tags[s][r.h.log[i].way].valid && r.c.tags[s][r.h.log[i].way].tag == r.h.log[i].tag
  {
    var w := r.h.log[i].way;
    LastFillIsKept(r.h.log, s, w, i);
    assert WayOk(r.c.tags[s][w], r.h.log, s, w);
  }

  /** Once a flush has finished, every valid line was filled after the flush began. */
  lemma FlushLeavesNewLines(k: Config, tags: seq<seq<Tagv>>, steps: seq<Step>, s: nat, w: nat)
    requires Empty(k, tags) && FlushFits(k) && Inv(k, Start(k, tags)) && CalmRun(k, Start(k, tags), steps)
    requires s < SetSize(k) && w < k.ways
    ensures var r := After(k, Start(k, tags), steps);
      !r.c.flushValid && r.c.tags[s][w].valid ==>
        exists i :: r.h.flushStart <= i < |r.h.log| && r.h.log[i].Filled? && r.h.log[i].index == s && r.h.log[i].way == w
  {
    EveryRunLines(k, tags, steps);
  }

  // ---- what breaks uniqueness ----

  ghost predicate AllUnique(c: Cache) {
    forall s :: 0 <= s < |c.tags| ==> Unique(c.tags[s])
  }

  /** Another way of the set holds the tag an answer would be stored under. */
  predicate HeldElsewhere(c: Cache)
    requires c.index < |c.tags|
  {
    exists w :: 0 <= w < |c.tags[c.index]| && w != c.way && c.tags[c.index][w].valid && c.tags[c.index][w].tag == c.tag
  }

  lemma AnswerBreaksIff(k: Config, r: Run, redirects: bool)
    requires Inv(k, r) && AllUnique(r.c) && 0 < r.h.inflight
    ensures AllUnique(AnswerStep(k, r, redirects).c) <==> !HeldElsewhere(r.c)
  {
    var r' := AnswerStep(k, r, redirects);
    var row, row' := r.c.tags[r.c.index], r'.c.tags[r.c.index];
    assert Unique(row);
    if HeldElsewhere(r.c) {
      var w :| 0 <= w < |row| && w != r.c.way && row[w].valid && row[w].tag == r.c.tag;
      assert row'[w].tag == row'[r.c.way].tag && row'[w].valid && row'[r.c.way].valid;
      assert !Unique(row');
    } else {
      forall s | 0 <= s < |r'.c.tags| ensures Unique(r'.c.tags[s]) {
        assert Unique(r.c.tags[s]);
      }
    }
  }

  /** No other step makes a line valid. */
  lemma OthersFillNothing(k: Config, r: Run, step: Step, s: nat, w: nat)
    requires Inv(k, r) && Enabled(k, r, step) && !step.Answer? && s < |r.c.tags| && w < k.ways
    ensures var r' := Next(k, r, step);
      && |r'.c.tags| == |r.c.tags| && |r'.c.tags[s]| == |r.c.tags[s]| && r'.c.tags[s][w].tag == r.c.tags[s][w].tag
      && (r'.c.tags[s][w].valid ==> r.c.tags[s][w].valid)
  {
    SplitInRange(k, r.c.idleReq.addr);
  }

  /** In any reachable state with unique tags, redirects or not: a step breaks that exactly if it is
      an answer stored under a tag that another way of the set holds. */
  lemma BreaksIff(k: Config, r: Run, step: Step)
    requires Inv(k, r) && Enabled(k, r, step) && AllUnique(r.c)
    ensures AllUnique(Next(k, r, step).c) <==> !(step.Answer? && HeldElsewhere(r.c))
  {
    if step.Answer? {
      AnswerBreaksIff(k, r, step.redirects);
    } else {
      var r' := Next(k, r, step);
      NextKeeps(k, r, step);
      forall s | 0 <= s < |r'.c.tags| ensures Unique(r'.c.tags[s]) {
        assert Unique(r.c.tags[s]);
        forall w | 0 <= w < k.ways
          ensures r'.c.tags[s][w].tag == r.c.tags[s][w].tag && (r'.c.tags[s][w].valid ==> r.c.tags[s][w].valid)
        {
          OthersFillNothing(k, r, step, s, w);
        }
      }
    }
  }

  // ---- a redirect while a line is being fetched ----

  const SMALL := Config(false, 0, 0, 2)

  function Line(tag: nat): Tagv {
    Tagv(tag, true, false)
  }

  /** Idle, nothing out, nothing asked. */
  predicate AtRest(r: Run) {
    r.c.state == Idle && !r.c.idleValid && !r.c.clearWait && !r.c.flushValid && r.h.inflight == 0
  }

  function NoLines(): seq<seq<Tagv>> {
    [[Tagv(0, false, false), Tagv(0, false, false)]]
  }

  /** The state after the first n steps. */
  function Here(steps: seq<Step>, n: nat): (r: Run)
    requires n <= |steps|
    ensures Inv(SMALL, r)
  {
    StartInv(SMALL, NoLines());
    After(SMALL, Start(SMALL, NoLines()), steps[..n])
  }

  lemma Advance(steps: seq<Step>, n: nat)
    requires n < |steps| && Enabled(SMALL, Here(steps, n), steps[n])
    ensures Here(steps, n + 1) == Next(SMALL, Here(steps, n), steps[n])
  {
    assert steps[..n + 1][..n] == steps[..n];
  }

  function AskFor(addr: nat): Step {
    Ask(Req(addr, false))
  }

  lemma SmallSplit(addr: nat)
    ensures Split(SMALL, addr) == (0, addr)
  {}

  lemma Asked(r: Run, addr: nat)
    requires Inv(SMALL, r) && AtRest(r) && Absent(r.c.tags[0], addr)
    ensures var r' := Next(SMALL, r, AskFor(addr));
      var r'' := Next(SMALL, r', Tick(true, 0, false));
      && r''.c.state == Lookup && !r''.c.hit && r''.c.tag == addr && r''.c.tags == r.c.tags && !r''.c.flushValid
      && !r''.c.clearWait && r''.h.inflight == 0
  {
    SmallSplit(addr);
  }

  /** A miss on an idle cache is asked for. */
  lemma GoMissing(steps: seq<Step>, n: nat, addr: nat, way: nat)
    requires n + 3 <= |steps| && steps[n] == AskFor(addr) && way < 2
    requires steps[n + 1] == Tick(true, 0, false) && steps[n + 2] == Tick(true, way, false)
    requires AtRest(Here(steps, n)) && Absent(Here(steps, n).c.tags[0], addr)
    ensures var r := Here(steps, n + 3);
      && r.c.tags == Here(steps, n).c.tags && r.c.state == Miss && r.c.tag == addr && r.c.way == way && !r.c.flushValid
  {
    Asked(Here(steps, n), addr);
    Advance(steps, n);
    Advance(steps, n + 1);
    Advance(steps, n + 2);
  }

  lemma OneSet(r: Run)
    requires Inv(SMALL, r)
    ensures |r.c.tags| == 1 && |r.c.tags[0]| == 2 && r.c.index == 0 && r.c.way < 2
  {}

  lemma Fill(steps: seq<Step>, n: nat)
    requires n + 2 <= |steps| && steps[n] == Answer(false) && steps[n + 1] == Tick(true, 0, false)
    requires Here(steps, n).c.state == Miss && !Here(steps, n).c.flushValid
    ensures OneSetAt(Here(steps, n)) && OneSetAt(Here(steps, n + 2))
    ensures var r, r' := Here(steps, n), Here(steps, n + 2);
      AtRest(r') && r'.c.tags[0] == r.c.tags[0][r.c.way := Line(r.c.tag)]
  {
    OneSet(Here(steps, n));
    OneSet(Here(steps, n + 2));
    Advance(steps, n);
    Advance(steps, n + 1);
  }

  predicate OneSetAt(r: Run) {
    |r.c.tags| == 1 && |r.c.tags[0]| == 2 && r.c.way < 2
  }

  lemma Abandoned(r: Run, addr: nat)
    requires Inv(SMALL, r) && r.c.state == Miss && !r.c.flushValid && !Absent(r.c.tags[0], addr)
    ensures var r' := Next(SMALL, r, Redirect);
      var r'' := Next(SMALL, Next(SMALL, r', AskFor(addr)), Tick(true, 0, false));
      && r''.c.tag == addr && r''.c.clearWait && r''.c.way == r.c.way && r''.c.tags == r.c.tags && r''.h.inflight == 1
  {
    SmallSplit(addr);
  }

  /** The line being fetched is abandoned; the line held is asked for; the abandoned one lands. */
  lemma Overtake(steps: seq<Step>, n: nat, addr: nat)
    requires n + 4 <= |steps| && steps[n] == Redirect && steps[n + 1] == AskFor(addr)
    requires steps[n + 2] == Tick(true, 0, false) && steps[n + 3] == Answer(false)
    requires Here(steps, n).c.state == Miss && !Here(steps, n).c.flushValid && !Absent(Here(steps, n).c.tags[0], addr)
    ensures OneSetAt(Here(steps, n)) && OneSetAt(Here(steps, n + 4))
    ensures Here(steps, n + 4).c.tags[0] == Here(steps, n).c.tags[0][Here(steps, n).c.way := Line(addr)]
  {
    OneSet(Here(steps, n));
    OneSet(Here(steps, n + 4));
    Abandoned(Here(steps, n), addr);
    Advance(steps, n);
    Advance(steps, n + 1);
    Advance(steps, n + 2);
    OneSet(Here(steps, n + 3));
    Advance(steps, n + 3);
  }

  function Overtaking(): seq<Step> {
    [AskFor(5), Tick(true, 0, false), Tick(true, 0, false), Answer(false), Tick(true, 0, false),
     AskFor(6), Tick(true, 0, false), Tick(true, 1, false), Redirect, AskFor(5), Tick(true, 0, false), Answer(false)]
  }

  lemma FirstLine()
    ensures AtRest(Here(Overtaking(), 5)) && OneSetAt(Here(Overtaking(), 5))
    ensures Here(Overtaking(), 5).c.tags[0] == [Line(5), Tagv(0, false, false)]
  {
    assert Here(Overtaking(), 0) == Start(SMALL, NoLines());
    GoMissing(Overtaking(), 0, 5, 0);
    Fill(Overtaking(), 3);
  }

  lemma SecondLine()
    ensures OneSetAt(Here(Overtaking(), 12)) && Here(Overtaking(), 12).c.tags[0] == [Line(5), Line(5)]
  {
    FirstLine();
    GoMissing(Overtaking(), 5, 6, 1);
    assert Here(Overtaking(), 8).c.tags[0][0] == Line(5);
    Overtake(Overtaking(), 8, 5);
  }

  /** One set of two ways; line 5 is held and line 6 being fetched when a redirect comes; then
      5 is looked up again, and the abandoned line lands under its tag: 5 is held twice. */
  lemma RedirectBreaksTags()
    ensures Empty(SMALL, NoLines()) && FlushFits(SMALL) && Inv(SMALL, Start(SMALL, NoLines()))
    ensures |After(SMALL, Start(SMALL, NoLines()), Overtaking()).c.tags| == 1
    ensures !Unique(After(SMALL, Start(SMALL, NoLines()), Overtaking()).c.tags[0])
  {
    StartInv(SMALL, NoLines());
    SecondLine();
    assert Overtaking()[..12] == Overtaking();
    TwoAlike(Here(Overtaking(), 12).c.tags[0]);
  }

  lemma TwoAlike(row: seq<Tagv>)
    requires row == [Line(5), Line(5)]
    ensures !Unique(row)
  {
    assert row[0] == row[1] && row[0].valid;
  }

  // ---- a redirect of a refilled line ----

  function Orphaning(): seq<Step> {
    [AskFor(5), Tick(true, 0, false), Tick(true, 0, false), Answer(false), Redirect]
  }

  lemma Undelivered(k: Config, r: Run)
    requires Inv(k, r) && r.c.state == Miss
    ensures Inv(k, Next(k, r, Answer(false))) && Orphaned(Next(k, Next(k, r, Answer(false)), Redirect))
  {
    NextKeeps(k, r, Answer(false));
  }

  lemma OrphansAt(steps: seq<Step>, n: nat)
    requires n + 2 <= |steps| && steps[n] == Answer(false) && steps[n + 1] == Redirect
    requires Here(steps, n).c.state == Miss
    ensures Orphaned(Here(steps, n + 2))
  {
    Undelivered(SMALL, Here(steps, n));
    Advance(steps, n);
    Advance(steps, n + 1);
  }

  lemma GoOrphaned(steps: seq<Step>)
    requires steps == Orphaning()
    ensures Orphaned(Here(steps, 5))
  {
    StartInv(SMALL, NoLines());
    assert Here(steps, 0) == Start(SMALL, NoLines());
    GoMissing(steps, 0, 5, 0);
    OrphansAt(steps, 3);
  }

  /** A line arrives, and a redirect comes before the tick that delivers it: from then on the cache
      waits for an answer that never comes. */
  lemma RefilledAndRedirected()
    ensures Empty(SMALL, NoLines()) && FlushFits(SMALL) && Inv(SMALL, Start(SMALL, NoLines()))
    ensures Orphaned(After(SMALL, Start(SMALL, NoLines()), Orphaning()))
  {
    StartInv(SMALL, NoLines());
    GoOrphaned(Orphaning());
    assert Orphaning()[..5] == Orphaning();
  }
}
