/** Least-recently-used replacement (src/cache/replace/lru.cpp): per set a list of ways that is
    spliced in place, and a map from each way to its node of the list. */
module Lru {
  /** A list node: where it is, and the way it holds. */
  datatype Node = Node(address: nat, way: nat)

  /** One set: lru_list, oldest first, and lru_map. */
  datatype Ways = Ways(list: seq<Node>, nodes: seq<Node>)

  // ---- splicing ----

  function Without(list: seq<Node>, node: Node): (r: seq<Node>)
    ensures node in list ==> |r| == |list| - 1
    ensures node !in list ==> r == list
  {
    if |list| == 0 then []
    else if list[0] == node then list[1..]
    else [list[0]] + Without(list[1..], node)
  }

  function ToEnd(list: seq<Node>, node: Node): seq<Node> {
    Without(list, node) + [node]
  }

  function ToFront(list: seq<Node>, node: Node): seq<Node> {
    [node] + Without(list, node)
  }

  function InsertWay(s: Ways, way: nat): Ways
    requires way < |s.nodes|
  {
    s.(list := ToEnd(s.list, s.nodes[way]))
  }

  function ClearWay(s: Ways, way: nat): Ways
    requires way < |s.nodes|
  {
    s.(list := ToFront(s.list, s.nodes[way]))
  }

  function GetWay(s: Ways): (Ways, nat)
    requires 0 < |s.list|
  {
    (s.(list := ToEnd(s.list, s.list[0])), s.list[0].way)
  }

  /** setParams for one set. */
  function Fresh(ways: nat): Ways {
    var nodes := seq(ways, (i: nat) => Node(i, i));
    Ways(nodes, nodes)
  }

  // ---- what was done ----

  /** insert and get touch a way; clear makes it the next victim. */
  datatype Event = Touched(way: nat) | Cleared(way: nat)

  /** How recent a way is: its last touch; if it was cleared since, less than anything before;
      at the start, in order of number. */
  function Age(log: seq<Event>, ways: nat, w: nat): int {
    if |log| == 0 then w - ways
    else
      match log[|log| - 1]
      case Touched(v) => if v == w then |log| else Age(log[..|log| - 1], ways, w)
      case Cleared(v) => if v == w then -|log| - ways else Age(log[..|log| - 1], ways, w)
  }

  lemma {:induction false} AgeBounds(log: seq<Event>, ways: nat, w: nat)
    requires w < ways
    ensures -|log| - ways <= Age(log, ways, w) <= |log|
  {
    if |log| > 0 { AgeBounds(log[..|log| - 1], ways, w); }
  }

  lemma AgeMore(log: seq<Event>, e: Event, ways: nat, w: nat)
    ensures Age(log + [e], ways, w) ==
      if e.way != w then Age(log, ways, w) else if e.Touched? then |log| + 1 else -(|log| + 1) - ways
  {
    assert (log + [e])[..|log|] == log;
  }

  // ---- the invariant ----

  predicate NodesOk(s: Ways, ways: nat) {
    && |s.nodes| == ways
    && (forall w :: 0 <= w < ways ==> s.nodes[w].way == w)
    && (forall v, w :: 0 <= v < w < ways ==> s.nodes[v].address != s.nodes[w].address)
  }

  /** The list holds every node once, oldest first. */
  predicate Inv(s: Ways, log: seq<Event>, ways: nat) {
    && NodesOk(s, ways)
    && |s.list| == ways && (forall w :: 0 <= w < ways ==> s.nodes[w] in s.list)
    && (forall i :: 0 <= i < |s.list| ==> s.list[i].way < ways && s.list[i] == s.nodes[s.list[i].way])
    && (forall i, j :: 0 <= i < j < |s.list| ==> Age(log, ways, s.list[i].way) < Age(log, ways, s.list[j].way))
  }

  /** Different nodes hold different ways, so every way is in the list exactly once. */
  lemma Distinct(s: Ways, log: seq<Event>, ways: nat)
    requires Inv(s, log, ways)
    ensures forall i, j :: 0 <= i < j < |s.list| ==> s.list[i].way != s.list[j].way
  {}

  lemma FreshInv(ways: nat)
    ensures Inv(Fresh(ways), [], ways)
  {
    var s := Fresh(ways);
    forall w | 0 <= w < ways ensures s.nodes[w] in s.list {
      assert s.list[w] == s.nodes[w];
    }
  }

  /** Splicing a node out keeps the others in order. */
  lemma {:induction false} WithoutKeeps(list: seq<Node>, node: Node) returns (k: nat)
    requires node in list
    ensures k < |list| && list[k] == node && Without(list, node) == list[..k] + list[k + 1..]
  {
    if list[0] == node {
      k := 0;
    } else {
      var m := WithoutKeeps(list[1..], node);
      k := m + 1;
      assert [list[0]] + (list[1..][..m] + list[1..][m + 1..]) == list[..k] + list[k + 1..];
    }
  }

  /** The list with a node spliced to either end holds the same nodes. */
  lemma SameNodes(list: seq<Node>, node: Node, k: nat, x: Node)
    requires k < |list| && list[k] == node && x in list
    ensures x == node || x in list[..k] + list[k + 1..]
  {
    var i :| 0 <= i < |list| && list[i] == x;
    if i < k {
      assert (list[..k] + list[k + 1..])[i] == x;
    } else if i > k {
      assert (list[..k] + list[k + 1..])[i - 1] == x;
    }
  }

  /** What is left of the list without way w: the others, in order. */
  lemma Spliced(s: Ways, log: seq<Event>, ways: nat, w: nat)
    requires Inv(s, log, ways) && w < ways
    ensures var rest := Without(s.list, s.nodes[w]);
      && |rest| == ways - 1
      && (forall i :: 0 <= i < |rest| ==> rest[i].way < ways && rest[i].way != w && rest[i] == s.nodes[rest[i].way])
      && (forall i, j :: 0 <= i < j < |rest| ==> Age(log, ways, rest[i].way) < Age(log, ways, rest[j].way))
      && (forall v :: 0 <= v < ways && v != w ==> s.nodes[v] in rest)
  {
    Distinct(s, log, ways);
    var k := WithoutKeeps(s.list, s.nodes[w]);
    var rest := Without(s.list, s.nodes[w]);
    forall i | 0 <= i < |rest| ensures rest[i] == s.list[if i < k then i else i + 1] {}
    forall v | 0 <= v < ways && v != w ensures s.nodes[v] in rest {
      SameNodes(s.list, s.nodes[w], k, s.nodes[v]);
    }
  }

  lemma TouchKeeps(s: Ways, log: seq<Event>, ways: nat, w: nat)
    requires Inv(s, log, ways) && w < ways
    ensures Inv(InsertWay(s, w), log + [Touched(w)], ways)
  {
    Spliced(s, log, ways, w);
    var rest := Without(s.list, s.nodes[w]);
    forall i | 0 <= i < |rest|
      ensures Age(log + [Touched(w)], ways, rest[i].way) == Age(log, ways, rest[i].way) <= |log|
    {
      AgeMore(log, Touched(w), ways, rest[i].way);
      AgeBounds(log, ways, rest[i].way);
    }
    AgeMore(log, Touched(w), ways, w);
    BackOrder(s.nodes[w], rest, log + [Touched(w)], ways);
  }

  lemma BackOrder(node: Node, rest: seq<Node>, log: seq<Event>, ways: nat)
    requires forall i, j :: 0 <= i < j < |rest| ==> Age(log, ways, rest[i].way) < Age(log, ways, rest[j].way)
    requires forall i :: 0 <= i < |rest| ==> Age(log, ways, rest[i].way) < Age(log, ways, node.way)
    ensures var list := rest + [node];
      forall i, j :: 0 <= i < j < |list| ==> Age(log, ways, list[i].way) < Age(log, ways, list[j].way)
  {}

  lemma ClearKeeps(s: Ways, log: seq<Event>, ways: nat, w: nat)
    requires Inv(s, log, ways) && w < ways
    ensures Inv(ClearWay(s, w), log + [Cleared(w)], ways)
  {
    Spliced(s, log, ways, w);
    var rest := Without(s.list, s.nodes[w]);
    forall i | 0 <= i < |rest|
      ensures Age(log + [Cleared(w)], ways, rest[i].way) == Age(log, ways, rest[i].way) >= -|log| - ways
    {
      AgeMore(log, Cleared(w), ways, rest[i].way);
      AgeBounds(log, ways, rest[i].way);
    }
    AgeMore(log, Cleared(w), ways, w);
    FrontOrder(s.nodes[w], rest, log + [Cleared(w)], ways);
  }

  lemma FrontOrder(node: Node, rest: seq<Node>, log: seq<Event>, ways: nat)
    requires forall i, j :: 0 <= i < j < |rest| ==> Age(log, ways, rest[i].way) < Age(log, ways, rest[j].way)
    requires forall i :: 0 <= i < |rest| ==> Age(log, ways, node.way) < Age(log, ways, rest[i].way)
    ensures var list := [node] + rest;
      forall i, j :: 0 <= i < j < |list| ==> Age(log, ways, list[i].way) < Age(log, ways, list[j].way)
  {}

  /** get returns the oldest way, and touches it. */
  lemma GetIsOldest(s: Ways, log: seq<Event>, ways: nat)
    requires Inv(s, log, ways) && 0 < ways
    ensures var (s', w) := GetWay(s);
      && w < ways && Inv(s', log + [Touched(w)], ways)
      && forall v :: 0 <= v < ways && v != w ==> Age(log, ways, w) < Age(log, ways, v)
  {
    var w := s.list[0].way;
    TouchKeeps(s, log, ways, w);
    forall v | 0 <= v < ways && v != w ensures Age(log, ways, w) < Age(log, ways, v) {
      var i :| 0 <= i < |s.list| && s.list[i] == s.nodes[v];
      assert i > 0;
    }
  }

  // ---- in words without ages ----

  /** Where a way was last touched; -1 if never. */
  function LastTouch(log: seq<Event>, w: nat): (i: int)
    ensures -1 <= i < |log| && (i >= 0 ==> log[i] == Touched(w))
    ensures forall j :: i < j < |log| ==> log[j] != Touched(w)
  {
    if |log| == 0 then -1
    else if log[|log| - 1] == Touched(w) then |log| - 1
    else LastTouch(log[..|log| - 1], w)
  }

  lemma {:induction false} AgeIsLastTouch(log: seq<Event>, ways: nat, w: nat)
    requires forall i :: 0 <= i < |log| ==> log[i].Touched?
    ensures Age(log, ways, w) == if LastTouch(log, w) >= 0 then LastTouch(log, w) + 1 else w - ways
  {
    if |log| > 0 && log[|log| - 1].way != w { AgeIsLastTouch(log[..|log| - 1], ways, w); }
  }

  /** Without clears, get returns the way whose last insert or get is oldest. */
  lemma GetIsLeastRecent(s: Ways, log: seq<Event>, ways: nat, v: nat)
    requires Inv(s, log, ways) && 0 < ways && v < ways && (forall i :: 0 <= i < |log| ==> log[i].Touched?)
    ensures var w := GetWay(s).1;
      LastTouch(log, w) <= LastTouch(log, v) && (LastTouch(log, w) == LastTouch(log, v) ==> w <= v)
  {
    GetIsOldest(s, log, ways);
    AgeIsLastTouch(log, ways, v);
    AgeIsLastTouch(log, ways, GetWay(s).1);
  }

  // ---- how long a way is safe ----

  /** n gets in a row. */
  function Gets(s: Ways, n: nat): (r: seq<nat>)
    requires 0 < |s.list|
    ensures |r| == n
    decreases n
  {
    if n == 0 then [] else [GetWay(s).1] + Gets(GetWay(s).0, n - 1)
  }

  /** Gets in a row return the list from its front, round and round. */
  lemma {:induction false} GetsRotate(s: Ways, n: nat, i: nat)
    requires 0 < |s.list| && i < n && n <= |s.list|
    ensures Gets(s, n)[i] == s.list[i].way
    decreases n
  {
    assert Without(s.list, s.list[0]) == s.list[1..];
    if i > 0 {
      GetsRotate(GetWay(s).0, n - 1, i - 1);
    }
  }

  /** A way just inserted is returned by none of the next ways-1 gets, and by the one after. */
  lemma InsertedIsSafe(s: Ways, log: seq<Event>, ways: nat, w: nat)
    requires Inv(s, log, ways) && w < ways
    ensures 0 < |InsertWay(s, w).list|
    ensures var r := Gets(InsertWay(s, w), ways);
      (forall i :: 0 <= i < ways - 1 ==> r[i] != w) && r[ways - 1] == w
  {
    TouchKeeps(s, log, ways, w);
    var s' := InsertWay(s, w);
    Distinct(s', log + [Touched(w)], ways);
    var r := Gets(s', ways);
    forall i | 0 <= i < ways ensures r[i] == s'.list[i].way {
      GetsRotate(s', ways, i);
    }
    assert s'.list[ways - 1] == s.nodes[w];
  }

  // ---- the object ----

  class LRUReplace {
    var lruList: seq<seq<Node>>
    var lruMap: seq<seq<Node>>
    const ways: nat
    ghost var logs: seq<seq<Event>>

    ghost predicate Valid()
      reads this
    {
      && |lruList| == |lruMap| == |logs| && 0 < ways
      && forall i :: 0 <= i < |lruList| ==> Inv(View(i), logs[i], ways)
    }

    function View(i: nat): Ways
      requires i < |lruList| && i < |lruMap|
      reads this
    {
      Ways(lruList[i], lruMap[i])
    }

    /** setParams. */
    constructor (sets: nat, ways: nat)
      requires 0 < ways
      ensures Valid() && this.ways == ways && |lruList| == sets
      ensures forall i :: 0 <= i < sets ==> View(i) == Fresh(ways) && logs[i] == []
    {
      this.ways := ways;
      lruList := seq(sets, _ => Fresh(ways).list);
      lruMap := seq(sets, _ => Fresh(ways).nodes);
      logs := seq(sets, _ => []);
      new;
      FreshInv(ways);
    }

    method Insert(i: nat, way: nat)
      requires Valid() && i < |lruList| && way < ways
      modifies this
      ensures Valid() && lruMap == old(lruMap) && |lruList| == old(|lruList|)
      ensures View(i) == InsertWay(old(View(i)), way) && logs == old(logs)[i := old(logs[i]) + [Touched(way)]]
      ensures forall j :: 0 <= j < |lruList| && j != i ==> View(j) == old(View(j))
    {
      TouchKeeps(View(i), logs[i], ways, way);
      lruList := lruList[i := ToEnd(lruList[i], lruMap[i][way])];
      logs := logs[i := logs[i] + [Touched(way)]];
    }

    method Clear(i: nat, way: nat)
      requires Valid() && i < |lruList| && way < ways
      modifies this
      ensures Valid() && lruMap == old(lruMap) && |lruList| == old(|lruList|)
      ensures View(i) == ClearWay(old(View(i)), way) && logs == old(logs)[i := old(logs[i]) + [Cleared(way)]]
      ensures forall j :: 0 <= j < |lruList| && j != i ==> View(j) == old(View(j))
    {
      ClearKeeps(View(i), logs[i], ways, way);
      lruList := lruList[i := ToFront(lruList[i], lruMap[i][way])];
      logs := logs[i := logs[i] + [Cleared(way)]];
    }

    method Get(i: nat) returns (way: nat)
      requires Valid() && i < |lruList|
      modifies this
      ensures Valid() && lruMap == old(lruMap) && |lruList| == old(|lruList|) && way < ways
      ensures (View(i), way) == GetWay(old(View(i))) && logs == old(logs)[i := old(logs[i]) + [Touched(way)]]
      ensures forall v :: 0 <= v < ways && v != way ==> Age(old(logs[i]), ways, way) < Age(old(logs[i]), ways, v)
      ensures forall j :: 0 <= j < |lruList| && j != i ==> View(j) == old(View(j))
    {
      GetIsOldest(View(i), logs[i], ways);
      way := lruList[i][0].way;
      lruList := lruList[i := ToEnd(lruList[i], lruList[i][0])];
      logs := logs[i := logs[i] + [Touched(way)]];
    }
  }
}
