/** ICache and DCache as objects (src/cache/icache.cpp, src/cache/dcache.cpp): their methods
    change the fields in place, exactly as the protocol's steps say. */
module Caches {
  import opened CacheSpec
  import opened CacheProof

  /** Cache::match. */
  method Match(row: seq<Tagv>, tag: nat) returns (r: Option<nat>)
    ensures r == FindWay(row, tag, 0)
    ensures r.None? <==> forall j :: 0 <= j < |row| ==> !(row[j].valid && row[j].tag == tag)
  {
    var i := 0;
    while i < |row|
      invariant 0 <= i <= |row| && FindWay(row, tag, i) == FindWay(row, tag, 0)
    {
      if row[i].valid && row[i].tag == tag {
        return Some(i);
      }
      i := i + 1;
    }
    r := None;
  }

  /** The loop of a flush tick over the ways of one set. */
  method Invalidate(row: seq<Tagv>) returns (r: seq<Tagv>)
    ensures r == Invalidated(row)
  {
    r := row;
    var i := 0;
    while i < |row|
      invariant 0 <= i <= |row| == |r|
      invariant forall j :: 0 <= j < i ==> r[j] == row[j].(valid := false)
      invariant forall j :: i <= j < |row| ==> r[j] == row[j]
    {
      r := r[i := r[i].(valid := false)];
      i := i + 1;
    }
  }

  function EmptyTags(k: Config): (tags: seq<seq<Tagv>>)
    ensures Empty(k, tags)
  {
    seq(SetSize(k), _ => seq(k.ways, _ => Tagv(0, false, false)))
  }

  class ICache {
    const k: Config
    var tags: seq<seq<Tagv>>
    var state: State
    var hit: bool               // _match
    var idleReq: Req
    var idleValid: bool
    var req: Req                // lookup_req
    var index: nat              // lookup_set
    var tag: nat                // lookup_tag
    var hitWay: nat
    var way: nat                // replace_way
    var clearWait: bool         // req_clear_wait
    var flushValid: bool
    var flushNum: nat
    var flushSet: nat
    ghost var h: History

    ghost function View(): Run
      reads this
    {
      Run(Cache(tags, state, hit, idleReq, idleValid, req, index, tag, hitWay, way, clearWait, flushValid, flushNum, flushSet), h)
    }

    ghost predicate Valid()
      reads this
    {
      Inv(k, View()) && !k.data
    }

    constructor (k: Config)
      requires FlushFits(k) && !k.data
      ensures this.k == k && Valid() && View() == Start(k, EmptyTags(k))
    {
      this.k, tags, state, hit := k, EmptyTags(k), Idle, false;
      idleReq, idleValid, req, index, tag := Req(0, false), false, Req(0, false), 0, 0;
      hitWay, way, clearWait, flushValid, flushNum, flushSet := 0, 0, false, false, 0, 0;
      h := Start(k, []).h;
      new;
      StartInv(k, EmptyTags(k));
    }

    method Lookup(r: Req) returns (accepted: bool)
      requires Valid()
      modifies this
      ensures Valid() && View() == old(Next(k, View(), Ask(r))) && accepted == old(Accepts(k, View().c))
    {
      ghost var before := View();
      accepted := !flushValid && (state == Idle || (state == State.Lookup && hit));
      if accepted {
        idleReq := r;
        idleValid := true;
        h := h.(accepted := h.accepted + 1, idleNo := h.accepted, asked := h.asked + [r]);
      }
      NextKeeps(k, before, Ask(r));
    }

    method Redirect(inCallback: bool)
      modifies this
      ensures View() == old(RedirectStep(k, View(), inCallback))
    {
      idleValid := false;
      if state == Miss || (state == Refill && !inCallback) {
        clearWait := true;
      }
      state := Idle;
      h := h.(epoch := h.accepted);
    }

    /** A redirect from elsewhere in the pipeline. */
    method OuterRedirect()
      requires Valid()
      modifies this
      ensures Valid() && View() == old(Next(k, View(), Step.Redirect))
    {
      NextKeeps(k, View(), Step.Redirect);
      Redirect(false);
    }

    /** The part before the callback. */
    method TakeIdleReq(s: nat, t: nat)
      requires s < |tags|
      modifies this
      ensures View() == old(Taken(View(), s, t))
    {
      req := idleReq;
      idleValid := false;
      h := h.(reqNo := h.idleNo);
      index, tag := s, t;
      var m := Match(tags[index], tag);
      hit := m.Some?;
      hitWay := if hit then m.value else 0;
    }

    method HandleIdleReq(redirects: bool)
      requires Split(k, idleReq.addr).0 < |tags|
      modifies this
      ensures View() == old(Handle(k, View(), redirects))
    {
      var (s, t) := Split(k, idleReq.addr);
      TakeIdleReq(s, t);
      if hit {
        h := Called(k, h, h.reqNo);
        if redirects {
          Redirect(true);
        }
      }
    }

    method FlushOne()
      requires flushSet < |tags|
      modifies this
      ensures View() == old(FlushTick(k, View()))
    {
      flushValid := flushNum != 1;
      flushNum := if flushNum == 0 then 65535 else flushNum - 1;
      var row := Invalidate(tags[flushSet]);
      tags := tags[flushSet := row];
      h := h.(log := h.log + [Flushed(flushSet)]);
      flushSet := if flushSet + 1 < SetSize(k) then flushSet + 1 else 0;
    }

    method Tick(accepts: bool, victim: nat, redirects: bool)
      requires Valid() && victim < k.ways
      modifies this
      ensures Valid() && View() == old(Next(k, View(), Step.Tick(accepts, victim, redirects)))
    {
      ghost var before := View();
      SplitInRange(k, idleReq.addr);
      Cycle(accepts, victim, redirects);
      NextKeeps(k, before, Step.Tick(accepts, victim, redirects));
    }

    method Cycle(accepts: bool, victim: nat, redirects: bool)
      requires flushSet < |tags| && Split(k, idleReq.addr).0 < |tags| && !k.data
      requires hit ==> index < |tags| && hitWay < |tags[index]|
      modifies this
      ensures View() == old(TickStep(k, View(), accepts, victim, redirects))
    {
      if flushValid {
        FlushOne();
        return;
      }
      match state
      case Idle =>
        if idleValid {
          HandleIdleReq(redirects);
          state := State.Lookup;
        }
      case Lookup =>
        if !hit {
          if !clearWait && accepts {
            way := victim;
            state := Miss;
            h := h.(inflight := h.inflight + 1, line := (index, tag));
          }
        } else if idleValid {
          HandleIdleReq(redirects);
        } else {
          state := Idle;
        }
      case Write => state := Idle;
      case Miss =>
      case Refill =>
        state := Idle;
        idleValid := false;
    }

    method Flush()
      requires Valid()
      modifies this
      ensures Valid() && View() == old(Next(k, View(), Step.Flush))
    {
      NextKeeps(k, View(), Step.Flush);
      flushSet := 0;
      flushNum := SetSize(k) % 65536;
      flushValid := true;
      h := h.(flushStart := |h.log|);
    }

    /** The parent's callback. */
    method Callback(redirects: bool)
      requires Valid() && 0 < h.inflight
      modifies this
      ensures Valid() && View() == old(Next(k, View(), Answer(redirects)))
    {
      NextKeeps(k, View(), Answer(redirects));
      Arrive(redirects);
    }

    method Arrive(redirects: bool)
      requires index < |tags| && way < |tags[index]| && 0 < h.inflight && !k.data
      modifies this
      ensures View() == old(AnswerStep(k, View(), redirects))
    {
      tags := tags[index := tags[index][way := Tagv(tag, true, false)]];
      h := h.(inflight := h.inflight - 1, log := h.log + [Filled(h.line.0, way, h.line.1)]);
      if clearWait {
        clearWait := false;
      } else {
        state := Refill;
        h := Called(k, h, h.reqNo);
        if redirects {
          Redirect(true);
        }
      }
    }
  }

  class DCache {
    const k: Config
    var tags: seq<seq<Tagv>>
    var state: State
    var hit: bool               // _match
    var idleReq: Req
    var idleValid: bool
    var req: Req                // lookup_req
    var index: nat              // lookup_set
    var tag: nat                // lookup_tag
    var hitWay: nat
    var way: nat                // replace_way
    var clearWait: bool         // req_clear_wait
    var flushValid: bool
    var flushNum: nat
    var flushSet: nat
    ghost var h: History

    ghost function View(): Run
      reads this
    {
      Run(Cache(tags, state, hit, idleReq, idleValid, req, index, tag, hitWay, way, clearWait, flushValid, flushNum, flushSet), h)
    }

    ghost predicate Valid()
      reads this
    {
      Inv(k, View()) && k.data
    }

    constructor (k: Config)
      requires FlushFits(k) && k.data
      ensures this.k == k && Valid() && View() == Start(k, EmptyTags(k))
    {
      this.k, tags, state, hit := k, EmptyTags(k), Idle, false;
      idleReq, idleValid, req, index, tag := Req(0, false), false, Req(0, false), 0, 0;
      hitWay, way, clearWait, flushValid, flushNum, flushSet := 0, 0, false, false, 0, 0;
      h := Start(k, []).h;
      new;
      StartInv(k, EmptyTags(k));
    }

    method Lookup(r: Req) returns (accepted: bool)
      requires Valid()
      modifies this
      ensures Valid() && View() == old(Next(k, View(), Ask(r))) && accepted == old(Accepts(k, View().c))
    {
      ghost var before := View();
      accepted := !flushValid && (state == Idle || (state == State.Lookup && hit && !req.write));
      if accepted {
        idleReq := r;
        idleValid := true;
        h := h.(accepted := h.accepted + 1, idleNo := h.accepted, asked := h.asked + [r]);
      }
      NextKeeps(k, before, Ask(r));
    }

    method Redirect()
      requires Valid()
      modifies this
      ensures Valid() && View() == old(Next(k, View(), Step.Redirect))
    {
      NextKeeps(k, View(), Step.Redirect);
      idleValid := false;
      if state == Miss || state == Refill {
        clearWait := true;
      }
      state := Idle;
      h := h.(epoch := h.accepted);
    }

    /** The part before the callback. */
    method TakeIdleReq(s: nat, t: nat)
      requires s < |tags|
      modifies this
      ensures View() == old(Taken(View(), s, t))
    {
      req := idleReq;
      idleValid := false;
      h := h.(reqNo := h.idleNo);
      index, tag := s, t;
      var m := Match(tags[index], tag);
      hit := m.Some?;
      hitWay := if hit then m.value else 0;
    }

    method HandleIdleReq()
      requires Split(k, idleReq.addr).0 < |tags|
      modifies this
      ensures View() == old(Handle(k, View(), false))
    {
      var (s, t) := Split(k, idleReq.addr);
      TakeIdleReq(s, t);
      if hit {
        h := Called(k, h, h.reqNo);
      }
    }

    method FlushOne()
      requires flushSet < |tags| && 0 < flushNum
      modifies this
      ensures View() == old(FlushTick(k, View()))
    {
      flushValid := flushNum != 1;
      flushNum := flushNum - 1;
      var row := Invalidate(tags[flushSet]);
      tags := tags[flushSet := row];
      h := h.(log := h.log + [Flushed(flushSet)]);
      flushSet := if flushSet + 1 < SetSize(k) then flushSet + 1 else 0;
    }

    method Tick(accepts: bool, victim: nat)
      requires Valid() && victim < k.ways
      modifies this
      ensures Valid() && View() == old(Next(k, View(), Step.Tick(accepts, victim, false)))
    {
      ghost var before := View();
      SplitInRange(k, idleReq.addr);
      Cycle(accepts, victim);
      NextKeeps(k, before, Step.Tick(accepts, victim, false));
    }

    method Cycle(accepts: bool, victim: nat)
      requires flushSet < |tags| && (flushValid ==> 0 < flushNum) && Split(k, idleReq.addr).0 < |tags| && k.data
      requires hit ==> index < |tags| && hitWay < |tags[index]|
      modifies this
      ensures View() == old(TickStep(k, View(), accepts, victim, false))
    {
      if flushValid {
        FlushOne();
        return;
      }
      match state
      case Idle =>
        if idleValid {
          state := State.Lookup;
          HandleIdleReq();
        }
      case Lookup =>
        if !hit {
          if !clearWait && accepts {
            way := victim;
            state := Miss;
            h := h.(inflight := h.inflight + 1, line := (index, tag));
          }
        } else if req.write {
          state := Write;
          tags := tags[index := tags[index][hitWay := tags[index][hitWay].(dirty := true)]];
        } else if idleValid {
          HandleIdleReq();
        } else {
          state := Idle;
        }
      case Write => state := Idle;
      case Miss =>
      case Refill =>
        state := Idle;
        idleValid := false;
    }

    method Flush()
      requires Valid()
      modifies this
      ensures Valid() && View() == old(Next(k, View(), Step.Flush))
    {
      NextKeeps(k, View(), Step.Flush);
      flushSet := 0;
      flushNum := SetSize(k);
      flushValid := true;
      h := h.(flushStart := |h.log|);
    }

    /** The parent's callback. */
    method Callback()
      requires Valid() && 0 < h.inflight
      modifies this
      ensures Valid() && View() == old(Next(k, View(), Answer(false)))
    {
      NextKeeps(k, View(), Answer(false));
      Arrive();
    }

    method Arrive()
      requires index < |tags| && way < |tags[index]| && 0 < h.inflight && k.data
      modifies this
      ensures View() == old(AnswerStep(k, View(), false))
    {
      tags := tags[index := tags[index][way := Tagv(tag, true, req.write)]];
      h := h.(inflight := h.inflight - 1, log := h.log + [Filled(h.line.0, way, h.line.1)]);
      if clearWait {
        clearWait := false;
      } else {
        h := Called(k, h, h.reqNo);
        state := Refill;
      }
    }
  }
}
