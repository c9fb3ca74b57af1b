/** The first-level caches as a state machine (src/cache/icache.cpp, src/cache/dcache.cpp,
    src/cache/cache.cpp lines 19-36).  Both follow one protocol; `data` selects the parts that
    only the data cache has.  Memory answers some time after it has accepted a request. */
module CacheSpec {
  import opened BitOps

  datatype Option<T> = None | Some(value: T)

  /** Sizes are powers of two. */
  datatype Config = Config(data: bool, lineBits: nat, setBits: nat, ways: nat)

  function SetSize(k: Config): nat {
    Pow2(k.setBits)
  }

  datatype Tagv = Tagv(tag: nat, valid: bool, dirty: bool)

  /** `write` stands for WRITE_BACK. */
  datatype Req = Req(addr: nat, write: bool)

  datatype State = Idle | Lookup | Write | Miss | Refill

  /** `hitWay` is where lookup_tagv points, `way` is replace_way, `clearWait` req_clear_wait. */
  datatype Cache = Cache(tags: seq<seq<Tagv>>, state: State, hit: bool, idleReq: Req, idleValid: bool, req: Req, index: nat,
                         tag: nat, hitWay: nat, way: nat, clearWait: bool, flushValid: bool, flushNum: nat, flushSet: nat)

  // ---- addresses and tags ----

  /** splitAddr. */
  function Split(k: Config, addr: nat): (nat, nat) {
    (And(Shr(addr, k.lineBits), Ones(k.setBits)), Shr(addr, k.lineBits + k.setBits))
  }

  /** match, from way i on. */
  function FindWay(row: seq<Tagv>, tag: nat, i: nat): (r: Option<nat>)
    requires i <= |row|
    ensures r.Some? ==> i <= r.value < |row| && row[r.value].valid && row[r.value].tag == tag
    ensures r.Some? ==> forall j :: i <= j < r.value ==> !(row[j].valid && row[j].tag == tag)
    ensures r.None? ==> forall j :: i <= j < |row| ==> !(row[j].valid && row[j].tag == tag)
    decreases |row| - i
  {
    if i == |row| then None
    else if row[i].valid && row[i].tag == tag then Some(i)
    else FindWay(row, tag, i + 1)
  }

  function Invalidated(row: seq<Tagv>): seq<Tagv> {
    seq(|row|, i requires 0 <= i < |row| => row[i].(valid := false))
  }

  // ---- what is observed from outside ----

  /** What happened to the lines: memory filled one, or a set was flushed. */
  datatype Event = Filled(index: nat, way: nat, tag: nat) | Flushed(index: nat)

  /** `inflight` counts parent requests without an answer, `line` is what the newest one asked for.  Accepted
      requests are numbered; `idleNo` and `reqNo` are the numbers of the waiting and the current
      one, `epoch` is how many had been accepted at the last redirect, `calls` the numbers
      called back.  `flushStart` is where the last flush began in the log.  `asked` are all accepted
      requests, `wrote` the writes called back. */
  datatype History = History(inflight: nat, line: (nat, nat), accepted: nat, idleNo: nat, reqNo: nat, epoch: nat,
                             calls: seq<nat>, log: seq<Event>, flushStart: nat, asked: seq<Req>, wrote: seq<Store>)

  /** A write called back when the log had this length, by its line. */
  datatype Store = Store(at: nat, index: nat, tag: nat)

  datatype Run = Run(c: Cache, h: History)

  datatype Step =
    | Ask(req: Req)                                        // lookup
    | Tick(accepts: bool, way: nat, redirects: bool)       // parent->lookup's and replace->get's answers
    | Answer(redirects: bool)                              // the parent calls back
    | Flush
    | Redirect

  // ---- the operations ----

  predicate Accepts(k: Config, c: Cache) {
    !c.flushValid && (c.state == Idle || (c.state == Lookup && c.hit && !(k.data && c.req.write)))
  }

  function AskStep(k: Config, r: Run, req: Req): Run {
    if Accepts(k, r.c) then
      Run(r.c.(idleReq := req, idleValid := true), r.h.(accepted := r.h.accepted + 1, idleNo := r.h.accepted, asked := r.h.asked + [req]))
    else r
  }

  /** The CPU is told that request n is done. */
  function Called(k: Config, h: History, n: nat): History {
    var line := if n < |h.asked| then Split(k, h.asked[n].addr) else (0, 0);
    h.(calls := h.calls + [n],
       wrote := if n < |h.asked| && h.asked[n].write then h.wrote + [Store(|h.log|, line.0, line.1)] else h.wrote)
  }

  function RedirectStep(k: Config, r: Run, inCallback: bool): Run {
    var wait := r.c.state == Miss || (r.c.state == Refill && !inCallback);
    Run(r.c.(idleValid := false, clearWait := r.c.clearWait || wait, state := Idle),
        r.h.(epoch := r.h.accepted))
  }

  /** The waiting request becomes the current one and is looked for. */
  function Taken(r: Run, index: nat, tag: nat): Run
    requires index < |r.c.tags|
  {
    var m := FindWay(r.c.tags[index], tag, 0);
    Run(r.c.(req := r.c.idleReq, idleValid := false, index := index, tag := tag, hit := m.Some?,
             hitWay := if m.Some? then m.value else 0),
        r.h.(reqNo := r.h.idleNo))
  }

  /** handleIdleReq; a hit calls back, and the instruction fetch may then redirect. */
  function Handle(k: Config, r: Run, redirects: bool): Run
    requires Split(k, r.c.idleReq.addr).0 < |r.c.tags|
  {
    var (index, tag) := Split(k, r.c.idleReq.addr);
    var taken := Taken(r, index, tag);
    if !taken.c.hit then taken
    else
      var r' := taken.(h := Called(k, taken.h, taken.h.reqNo));
      if redirects then RedirectStep(k, r', true) else r'
  }

  function FlushTick(k: Config, r: Run): Run
    requires r.c.flushSet < |r.c.tags|
  {
    var c := r.c;
    Run(c.(flushNum := if c.flushNum == 0 then 65535 else c.flushNum - 1,
           tags := c.tags[c.flushSet := Invalidated(c.tags[c.flushSet])],
           flushSet := if c.flushSet + 1 < SetSize(k) then c.flushSet + 1 else 0,
           flushValid := c.flushNum != 1),
        r.h.(log := r.h.log + [Flushed(c.flushSet)]))
  }

  /** The instruction cache counts in 16 bits. */
  function FlushCount(k: Config): nat {
    if k.data then SetSize(k) else SetSize(k) % 65536
  }

  function FlushStep(k: Config, r: Run): Run {
    Run(r.c.(flushSet := 0, flushNum := FlushCount(k), flushValid := true), r.h.(flushStart := |r.h.log|))
  }

  /** A missing line: ask the parent, unless an abandoned request is still out. */
  function AskParent(r: Run, accepts: bool, way: nat): Run {
    if !r.c.clearWait && accepts then
      Run(r.c.(way := way, state := Miss), r.h.(inflight := r.h.inflight + 1, line := (r.c.index, r.c.tag)))
    else r
  }

  function TickStep(k: Config, r: Run, accepts: bool, way: nat, redirects: bool): Run
    requires r.c.flushSet < |r.c.tags| && Split(k, r.c.idleReq.addr).0 < |r.c.tags|
    requires r.c.hit ==> r.c.index < |r.c.tags| && r.c.hitWay < |r.c.tags[r.c.index]|
  {
    var c := r.c;
    if c.flushValid then FlushTick(k, r)
    else
      match c.state
      case Idle =>
        if !c.idleValid then r
        else
          var r' := Handle(k, r, redirects);
          r'.(c := r'.c.(state := Lookup))
      case Lookup =>
        if !c.hit then AskParent(r, accepts, way)
        else if k.data && c.req.write then
          var row := c.tags[c.index];
          r.(c := c.(state := Write, tags := c.tags[c.index := row[c.hitWay := row[c.hitWay].(dirty := true)]]))
        else if c.idleValid then Handle(k, r, redirects)
        else r.(c := c.(state := Idle))
      case Write => r.(c := c.(state := Idle))
      case Miss => r
      case Refill => r.(c := c.(state := Idle, idleValid := false))
  }

  /** The parent's callback: the line goes into the tags; the CPU hears of it unless the request
      was abandoned. */
  function AnswerStep(k: Config, r: Run, redirects: bool): Run
    requires r.c.index < |r.c.tags| && r.c.way < |r.c.tags[r.c.index]| && 0 < r.h.inflight
  {
    var c := r.c;
    var entry := Tagv(c.tag, true, k.data && c.req.write);
    var c1 := c.(tags := c.tags[c.index := c.tags[c.index][c.way := entry]]);
    var h1 := r.h.(inflight := r.h.inflight - 1, log := r.h.log + [Filled(r.h.line.0, c.way, r.h.line.1)]);
    if c.clearWait then Run(c1.(clearWait := false), h1)
    else
      var r1 := Run(c1.(state := Refill), Called(k, h1, h1.reqNo));
      if redirects then RedirectStep(k, r1, true) else r1
  }

  // ---- runs ----

  predicate Shape(k: Config, c: Cache) {
    && 0 < k.ways && |c.tags| == SetSize(k)
    && (forall s :: 0 <= s < |c.tags| ==> |c.tags[s]| == k.ways)
    && c.index < |c.tags| && c.way < k.ways && c.hitWay < k.ways && c.flushSet < |c.tags|
  }

  /** The replacement names a way; only the instruction side redirects from a callback, and
      the parent answers what it was asked. */
  predicate Enabled(k: Config, r: Run, s: Step) {
    match s
    case Tick(_, way, redirects) => way < k.ways && (redirects ==> !k.data)
    case Answer(redirects) => 0 < r.h.inflight && (redirects ==> !k.data)
    case _ => true
  }

  lemma SplitInRange(k: Config, addr: nat)
    ensures Split(k, addr).0 < SetSize(k)
  {
    forall i: nat | i >= k.setBits ensures !Bit(Split(k, addr).0, i) {
      BitAnd(Shr(addr, k.lineBits), Ones(k.setBits), i);
      OnesBits(k.setBits, i);
    }
    BelowFromBits(Split(k, addr).0, k.setBits);
  }

  /** Set and tag together name the line: nothing but the offset is lost. */
  lemma SplitNamesLine(k: Config, addr: nat)
    ensures Split(k, addr).1 * SetSize(k) + Split(k, addr).0 == addr / Pow2(k.lineBits)
  {
    var line := addr / Pow2(k.lineBits);
    ShrValue(addr, k.lineBits);
    var high, low := DivMod(line, SetSize(k));
    forall i: nat ensures Bit(And(line, Ones(k.setBits)), i) == Bit(low, i) {
      BitAnd(line, Ones(k.setBits), i);
      OnesBits(k.setBits, i);
      BitMod(line, k.setBits, i);
    }
    BitExtensional(And(line, Ones(k.setBits)), low);
    ShrValue(addr, k.lineBits + k.setBits);
    Pow2Add(k.lineBits, k.setBits);
    DivDiv(addr, Pow2(k.lineBits), SetSize(k));
  }

  function Next(k: Config, r: Run, s: Step): Run
    requires Shape(k, r.c) && Enabled(k, r, s)
  {
    match s
    case Ask(req) => AskStep(k, r, req)
    case Tick(accepts, way, redirects) =>
      SplitInRange(k, r.c.idleReq.addr);
      TickStep(k, r, accepts, way, redirects)
    case Answer(redirects) => AnswerStep(k, r, redirects)
    case Flush => FlushStep(k, r)
    case Redirect => RedirectStep(k, r, false)
  }
}
