/** The topological sort that orders field assignments (scripts/decodetree.py, class
    TopologicalSorter, lines 92-130). */
module TopoSort {

  /** Each key's list of predecessors. */
  type Graph = map<string, seq<string>>

  datatype Result = Ordered(order: seq<string>) | CycleError(nodes: set<string>)

  function Preds(g: Graph, n: string): set<string> {
    if n in g then set p | p in g[n] else {}
  }

  /** The keys, and the items that only occur as predecessors. */
  function Nodes(g: Graph): set<string> {
    g.Keys + set n, p | n in g && p in g[n] :: p
  }

  ghost predicate Distinct(s: seq<string>) {
    forall i, j :: 0 <= i < j < |s| ==> s[i] != s[j]
  }

  ghost predicate PredsBefore(g: Graph, s: seq<string>) {
    forall i, p :: 0 <= i < |s| && p in Preds(g, s[i]) ==> p in s[..i]
  }

  /** Every node exactly once, each after all its predecessors. */
  ghost predicate IsOrder(g: Graph, s: seq<string>) {
    && Distinct(s)
    && (forall n :: n in s <==> n in Nodes(g))
    && PredsBefore(g, s)
  }

  /** A closed walk along predecessor edges. */
  ghost predicate IsCycle(g: Graph, c: seq<string>) {
    && |c| >= 2 && c[0] == c[|c| - 1]
    && forall i :: 0 <= i < |c| - 1 ==> c[i + 1] in Preds(g, c[i])
  }

  ghost predicate Cyclic(g: Graph) {
    exists c :: IsCycle(g, c)
  }

  /** The items left, each with the predecessors it still waits for. */
  ghost predicate Remaining(g: Graph, data: map<string, set<string>>, order: seq<string>) {
    && data.Keys == Nodes(g) - Elements(order)
    && Elements(order) <= Nodes(g)
    && forall n :: n in data ==> data[n] == Preds(g, n) - Elements(order)
  }

  method StaticOrder(g: Graph) returns (r: Result)
    ensures r.Ordered? ==> IsOrder(g, r.order)
    ensures r.Ordered? <==> !Cyclic(g)
    ensures r.CycleError? ==> r.nodes <= Nodes(g) && forall n :: n in r.nodes ==> Waits(g, r.nodes, n)
  {
    if g == map[] {
      OrderMeansNoCycle(g, []);
      return Ordered([]);
    }
    var data := map n | n in Nodes(g) :: Preds(g, n);
    var order: seq<string> := [];
    var ordered := set n | n in data && data[n] == {};
    while ordered != {}
      invariant Distinct(order) && PredsBefore(g, order)
      invariant Remaining(g, data, order)
      invariant ordered == set n | n in data && data[n] == {}
      decreases data.Keys
    {
      ghost var n0 :| n0 in ordered;
      ReadyItems(g, data, order, ordered);
      ghost var before := order;
      order := Extend(g, order, ordered);
      StillRemaining(g, data, before, ordered, order);
      data := Without(data, ordered);
      ordered := set n | n in data && data[n] == {};
      assert n0 !in data;
    }
    if data.Keys != {} {
      assert forall n :: n in data ==> n !in ordered;
      EachWaits(g, data, order);
      StuckMeansCycle(g, data.Keys);
      return CycleError(data.Keys);
    }
    NothingLeft(g, data, order);
    return Ordered(order);
  }

  lemma ReadyItems(g: Graph, data: map<string, set<string>>, order: seq<string>, ordered: set<string>)
    requires Remaining(g, data, order)
    requires forall n :: n in ordered ==> n in data && data[n] == {}
    ensures Elements(order) !! ordered
    ensures forall n :: n in ordered ==> Preds(g, n) <= Elements(order)
  {
    forall n, p | n in ordered && p in Preds(g, n) ensures p in Elements(order) {
      assert p !in data[n];
    }
  }

  /** The items that were not ready, waiting for what was not. */
  function Without(data: map<string, set<string>>, ordered: set<string>): map<string, set<string>> {
    map n | n in data && n !in ordered :: data[n] - ordered
  }

  lemma StillRemaining(g: Graph, data: map<string, set<string>>, before: seq<string>, ordered: set<string>, order: seq<string>)
    requires Remaining(g, data, before) && ordered <= data.Keys && Elements(order) == Elements(before) + ordered
    ensures Remaining(g, Without(data, ordered), order)
  {
    var rest := Without(data, ordered);
    forall n | n in rest ensures rest[n] == Preds(g, n) - Elements(order) {
      assert data[n] == Preds(g, n) - Elements(before);
    }
    assert rest.Keys == data.Keys - ordered;
  }

  /** Nothing is ready: each item left waits for another one left. */
  lemma EachWaits(g: Graph, data: map<string, set<string>>, order: seq<string>)
    requires Remaining(g, data, order) && forall n :: n in data ==> data[n] != {}
    ensures data.Keys <= Nodes(g) && forall n :: n in data ==> Waits(g, data.Keys, n)
  {
    forall n | n in data ensures Waits(g, data.Keys, n) {
      var p :| p in data[n];
      PredsAreNodes(g, n);
      assert p in Preds(g, n) && p in data.Keys;
    }
  }

  lemma NothingLeft(g: Graph, data: map<string, set<string>>, order: seq<string>)
    requires Remaining(g, data, order) && data.Keys == {}
    requires Distinct(order) && PredsBefore(g, order)
    ensures IsOrder(g, order) && !Cyclic(g)
  {
    forall n | n in Nodes(g) ensures n in Elements(order) { assert n !in data.Keys; }
    forall n ensures n in order <==> n in Nodes(g) { assert n in order <==> n in Elements(order); }
    OrderMeansNoCycle(g, order);
  }

  function Elements(s: seq<string>): set<string> {
    set n | n in s
  }

  /** r.extend(ordered): the set's items in any order. */
  method Extend(g: Graph, s: seq<string>, items: set<string>) returns (r: seq<string>)
    requires Distinct(s) && PredsBefore(g, s) && Elements(s) !! items
    requires forall n :: n in items ==> Preds(g, n) <= Elements(s)
    ensures Distinct(r) && PredsBefore(g, r) && Elements(r) == Elements(s) + items
  {
    r := s;
    var rest := items;
    while rest != {}
      invariant rest <= items && Elements(r) == Elements(s) + (items - rest)
      invariant Distinct(r) && PredsBefore(g, r)
      decreases rest
    {
      var n :| n in rest;
      assert n !in Elements(r);
      forall p | p in Preds(g, n) ensures p in r { assert p in Elements(r); }
      ghost var before := r;
      r := r + [n];
      rest := rest - {n};
      forall i, p | 0 <= i < |r| && p in Preds(g, r[i]) ensures p in r[..i] {
        assert r[..|before|] == before;
        if i < |before| { assert r[..i] == before[..i]; }
      }
      assert Elements(r) == Elements(before) + {n};
    }
  }

  lemma PredsAreNodes(g: Graph, n: string)
    ensures Preds(g, n) <= Nodes(g)
  {}

  /** The node waits for a predecessor within the set. */
  ghost predicate Waits(g: Graph, s: set<string>, n: string) {
    exists p :: p in Preds(g, n) && p in s
  }

  /** A walk within `s` along predecessor edges that visits no node twice. */
  ghost predicate IsWalk(g: Graph, s: set<string>, path: seq<string>) {
    && |path| > 0
    && Distinct(path)
    && Elements(path) <= s
    && forall i :: 0 <= i < |path| - 1 ==> path[i + 1] in Preds(g, path[i])
  }

  lemma {:induction false} WalkFinds(g: Graph, s: set<string>, path: seq<string>)
    requires forall n :: n in s ==> Waits(g, s, n)
    requires IsWalk(g, s, path)
    ensures Cyclic(g)
    decreases s - Elements(path)
  {
    var last := path[|path| - 1];
    assert last in Elements(path);
    assert Waits(g, s, last);
    var next :| next in Preds(g, last) && next in s;
    if next in path {
      CloseWalk(g, s, path, next);
    } else {
      LongerWalk(g, s, path, next);
      WalkFinds(g, s, path + [next]);
    }
  }

  lemma LongerWalk(g: Graph, s: set<string>, path: seq<string>, next: string)
    requires IsWalk(g, s, path) && next !in path && next in s && next in Preds(g, path[|path| - 1])
    ensures IsWalk(g, s, path + [next])
    ensures s - Elements(path + [next]) < s - Elements(path)
  {
    assert forall n :: n in path + [next] <==> n in path || n == next;
    assert Elements(path + [next]) == Elements(path) + {next};
    assert next in s - Elements(path);
  }

  lemma CloseWalk(g: Graph, s: set<string>, path: seq<string>, next: string)
    requires IsWalk(g, s, path) && next in path && next in Preds(g, path[|path| - 1])
    ensures Cyclic(g)
  {
    var i :| 0 <= i < |path| && path[i] == next;
    var c := path[i..] + [next];
    forall j | 0 <= j < |c| - 1 ensures c[j + 1] in Preds(g, c[j]) {
      assert c[j] == path[i + j];
      if j + 1 < |c| - 1 { assert c[j + 1] == path[(i + j) + 1]; }
    }
    assert IsCycle(g, c);
  }

  /** When every node left over still waits for another one left over, there is a cycle:
      walking along predecessors must come back to a node already seen. */
  lemma StuckMeansCycle(g: Graph, s: set<string>)
    requires s != {} && forall n :: n in s ==> Waits(g, s, n)
    ensures Cyclic(g)
  {
    var n :| n in s;
    WalkFinds(g, s, [n]);
  }

  lemma {:induction false} EarlierAlongWalk(g: Graph, order: seq<string>, c: seq<string>, k: nat) returns (i: nat, j: nat)
    requires IsOrder(g, order) && IsCycle(g, c) && 1 <= k < |c|
    ensures j < i < |order| && order[i] == c[0] && order[j] == c[k]
  {
    if k == 1 {
      assert c[0 + 1] in Preds(g, c[0]);
      assert c[0] in Nodes(g);
      assert c[0] in order;
      i :| 0 <= i < |order| && order[i] == c[0];
      j :| 0 <= j < i && order[j] == c[1];
    } else {
      var j';
      i, j' := EarlierAlongWalk(g, order, c, k - 1);
      assert c[(k - 1) + 1] in Preds(g, c[k - 1]);
      assert c[k] in order[..j'];
      j :| 0 <= j < j' && order[j] == c[k];
    }
  }

  /** A graph with an order has no cycle: a node would come before itself. */
  lemma OrderMeansNoCycle(g: Graph, order: seq<string>)
    requires IsOrder(g, order)
    ensures !Cyclic(g)
  {
    if c :| IsCycle(g, c) {
      var i, j := EarlierAlongWalk(g, order, c, |c| - 1);
      assert false;
    }
  }
}
