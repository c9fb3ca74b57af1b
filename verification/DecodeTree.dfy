/** Recursive partitioning of an exclusive group into a decode tree
    (scripts/decodetree.py, Tree and ExcMultiPattern.__build_tree, lines 787-833).
    Members are named by their index in the group. */
module DecodeTree {
  import opened BitOps
  import opened DecodeMasks

  datatype Option<+T> = None | Some(value: T)

  datatype Tree = Tree(fixedmask: nat, thismask: nat, subs: seq<Edge>)
  datatype Edge = Edge(bits: nat, sub: Sub)
  datatype Sub = SubTree(tree: Tree) | SubPat(i: nat)

  datatype Bin = Bin(key: nat, members: seq<nat>)

  predicate InRange(pats: seq<Node>, ix: seq<nat>) {
    forall k :: 0 <= k < |ix| ==> ix[k] < |pats|
  }

  /** The bits all listed members fix, among `start`. */
  function Meet(start: nat, pats: seq<Node>, ix: seq<nat>): nat
    requires InRange(pats, ix)
  {
    if |ix| == 0 then start
    else And(Meet(start, pats, ix[..|ix| - 1]), pats[ix[|ix| - 1]].FixedMask())
  }

  lemma {:induction false} MeetBit(start: nat, pats: seq<Node>, ix: seq<nat>, i: nat)
    requires InRange(pats, ix)
    ensures Bit(Meet(start, pats, ix), i) <==>
      Bit(start, i) && forall k :: 0 <= k < |ix| ==> Bit(pats[ix[k]].FixedMask(), i)
  {
    if |ix| > 0 {
      var front, last := ix[..|ix| - 1], ix[|ix| - 1];
      MeetBit(start, pats, front, i);
      BitAnd(Meet(start, pats, front), pats[last].FixedMask(), i);
      assert forall k :: 0 <= k < |front| ==> front[k] == ix[k];
      assert forall k :: 0 <= k < |ix| ==> k == |ix| - 1 || ix[k] == front[k];
    }
  }

  /** Where the bin of this key is, or the number of bins. */
  function Position(bins: seq<Bin>, key: nat): (k: nat)
    ensures k <= |bins|
    ensures k < |bins| ==> bins[k].key == key
    ensures k == |bins| ==> !HasKey(bins, key)
  {
    if |bins| == 0 then 0
    else
      var k := Position(bins[..|bins| - 1], key);
      if k < |bins| - 1 then k else if bins[k].key == key then k else k + 1
  }

  /** Appends a member to the bin of its key, opening a new bin at the end. */
  function AddToBins(bins: seq<Bin>, key: nat, i: nat): seq<Bin> {
    var k := Position(bins, key);
    if k < |bins| then bins[k := Bin(key, bins[k].members + [i])] else bins + [Bin(key, [i])]
  }

  function Bins(pats: seq<Node>, ix: seq<nat>, inner: nat): seq<Bin>
    requires InRange(pats, ix)
  {
    if |ix| == 0 then []
    else
      var last := ix[|ix| - 1];
      AddToBins(Bins(pats, ix[..|ix| - 1], inner), And(pats[last].FixedBits(), inner), last)
  }

  /** The listed members whose fixed bits select `key`, in order. */
  function Select(pats: seq<Node>, ix: seq<nat>, inner: nat, key: nat): (r: seq<nat>)
    requires InRange(pats, ix)
    ensures |r| <= |ix|
    ensures forall k :: 0 <= k < |r| ==> r[k] in ix && And(pats[r[k]].FixedBits(), inner) == key
  {
    if |ix| == 0 then []
    else
      var front, last := ix[..|ix| - 1], ix[|ix| - 1];
      assert forall i :: i in front ==> i in ix;
      Select(pats, front, inner, key) + (if And(pats[last].FixedBits(), inner) == key then [last] else [])
  }

  ghost predicate DistinctKeys(bins: seq<Bin>) {
    forall j, k :: 0 <= j < k < |bins| ==> bins[j].key != bins[k].key
  }

  /** `bins` splits the listed members by key: each bin holds its key's members in order. */
  ghost predicate Partition(pats: seq<Node>, ix: seq<nat>, inner: nat, bins: seq<Bin>)
    requires InRange(pats, ix)
  {
    && DistinctKeys(bins)
    && (forall k :: 0 <= k < |bins| ==> |bins[k].members| > 0)
    && (forall k :: 0 <= k < |bins| ==> bins[k].members == Select(pats, ix, inner, bins[k].key))
    && (forall key: nat :: HasKey(bins, key) || Select(pats, ix, inner, key) == [])
  }

  ghost predicate HasKey(bins: seq<Bin>, key: nat) {
    exists k :: 0 <= k < |bins| && bins[k].key == key
  }

  lemma {:induction false} BinsPartition(pats: seq<Node>, ix: seq<nat>, inner: nat)
    requires InRange(pats, ix)
    ensures Partition(pats, ix, inner, Bins(pats, ix, inner))
  {
    if |ix| > 0 {
      var front, last := ix[..|ix| - 1], ix[|ix| - 1];
      BinsPartition(pats, front, inner);
      AddKeepsPartition(pats, ix, inner, Bins(pats, front, inner));
    }
  }

  lemma AddKeepsPartition(pats: seq<Node>, ix: seq<nat>, inner: nat, bins: seq<Bin>)
    requires |ix| > 0 && InRange(pats, ix)
    requires Partition(pats, ix[..|ix| - 1], inner, bins)
    ensures var last := ix[|ix| - 1];
      Partition(pats, ix, inner, AddToBins(bins, And(pats[last].FixedBits(), inner), last))
  {
    var front, last := ix[..|ix| - 1], ix[|ix| - 1];
    var key := And(pats[last].FixedBits(), inner);
    var r := AddToBins(bins, key, last);
    AddEffect(bins, key, last);
    forall k | 0 <= k < |r|
      ensures |r[k].members| > 0 && r[k].members == Select(pats, ix, inner, r[k].key)
    {
      if k == |bins| {
        assert Select(pats, front, inner, key) == [];
      } else {
        assert bins[k].members == Select(pats, front, inner, bins[k].key);
      }
    }
    forall other: nat ensures HasKey(r, other) || Select(pats, ix, inner, other) == [] {
      if HasKey(bins, other) {
        var k :| 0 <= k < |bins| && bins[k].key == other;
        assert r[k].key == other;
      } else if other == key {
        assert r[|bins|].key == key;
      } else {
        assert Select(pats, front, inner, other) == [];
      }
    }
  }

  lemma AddEffect(bins: seq<Bin>, key: nat, i: nat)
    requires DistinctKeys(bins)
    ensures var r := AddToBins(bins, key, i);
      && DistinctKeys(r)
      && |bins| <= |r| <= |bins| + 1
      && (forall k :: 0 <= k < |bins| ==>
        r[k] == if bins[k].key == key then Bin(key, bins[k].members + [i]) else bins[k])
      && (|r| > |bins| ==> !HasKey(bins, key) && r[|bins|] == Bin(key, [i]))
      && (|r| == |bins| ==> HasKey(bins, key))
  {}

  /** __build_tree.  None is the `overlapping patterns` error: several members are left
      and no untested bit is fixed by all of them. */
  function Build(insnmask: nat, pats: seq<Node>, ix: seq<nat>, outermask: nat): Option<Tree>
    requires InRange(pats, ix)
    decreases AndNot(insnmask, outermask), 0, 0
  {
    var innermask := Meet(AndNot(insnmask, outermask), pats, ix);
    if innermask == 0 then
      if |ix| == 1 then Some(Tree(outermask, innermask, [Edge(0, SubPat(ix[0]))])) else None
    else
      var fullmask := Or(outermask, innermask);
      MaskGrows(insnmask, pats, ix, outermask);
      BinsPartition(pats, ix, innermask);
      match BuildSubs(insnmask, pats, Bins(pats, ix, innermask), fullmask)
      case None => None
      case Some(subs) => Some(Tree(fullmask, innermask, subs))
  }

  ghost predicate GoodBins(pats: seq<Node>, bins: seq<Bin>) {
    forall k :: 0 <= k < |bins| ==> |bins[k].members| > 0 && InRange(pats, bins[k].members)
  }

  /** The loop over the bins: a bin of one fully matched member becomes a leaf. */
  function BuildSubs(insnmask: nat, pats: seq<Node>, bins: seq<Bin>, fullmask: nat): (r: Option<seq<Edge>>)
    requires GoodBins(pats, bins)
    ensures r.Some? ==> |r.value| == |bins|
    decreases AndNot(insnmask, fullmask), 1, |bins|
  {
    if |bins| == 0 then Some([])
    else
      var n := |bins| - 1;
      match BuildSubs(insnmask, pats, bins[..n], fullmask)
      case None => None
      case Some(front) =>
        match BuildBin(insnmask, pats, bins[n].members, fullmask)
        case None => None
        case Some(s) => Some(front + [Edge(bins[n].key, s)])
  }

  function BuildBin(insnmask: nat, pats: seq<Node>, members: seq<nat>, fullmask: nat): Option<Sub>
    requires |members| > 0 && InRange(pats, members)
    decreases AndNot(insnmask, fullmask), 1, 0
  {
    if |members| > 1 || AndNot(pats[members[0]].FixedMask(), fullmask) != 0 then
      match Build(insnmask, pats, members, fullmask)
      case None => None
      case Some(t) => Some(SubTree(t))
    else
      Some(SubPat(members[0]))
  }

  /** The recursion makes progress: the path mask strictly grows. */
  lemma MaskGrows(insnmask: nat, pats: seq<Node>, ix: seq<nat>, outermask: nat)
    requires InRange(pats, ix) && Meet(AndNot(insnmask, outermask), pats, ix) != 0
    ensures var fullmask := Or(outermask, Meet(AndNot(insnmask, outermask), pats, ix));
      && Covers(fullmask, outermask) && fullmask != outermask
      && AndNot(insnmask, fullmask) < AndNot(insnmask, outermask)
  {
    var inner := Meet(AndNot(insnmask, outermask), pats, ix);
    var fullmask := Or(outermask, inner);
    var before, after := AndNot(insnmask, outermask), AndNot(insnmask, fullmask);
    forall i: nat
      ensures Bit(outermask, i) ==> Bit(fullmask, i)
      ensures Bit(after, i) ==> Bit(before, i)
    {
      BitOr(outermask, inner, i);
      BitAndNot(insnmask, outermask, i);
      BitAndNot(insnmask, fullmask, i);
    }
    CoversFromBits(fullmask, outermask);
    CoversFromBits(before, after);
    var i := LowestBit(inner);
    MeetBit(before, pats, ix, i);
    BitOr(outermask, inner, i);
    BitAndNot(insnmask, outermask, i);
    BitAndNot(insnmask, fullmask, i);
    CoveredIsSmaller(before, after);
  }

  method IntersectMasks(start: nat, pats: seq<Node>, ix: seq<nat>) returns (m: nat)
    requires InRange(pats, ix)
    ensures m == Meet(start, pats, ix)
  {
    m := start;
    for k := 0 to |ix|
      invariant m == Meet(start, pats, ix[..k])
    {
      m := And(m, pats[ix[k]].FixedMask());
      assert ix[..k + 1][..k] == ix[..k];
    }
    assert ix[..|ix|] == ix;
  }

  method FillBins(pats: seq<Node>, ix: seq<nat>, innermask: nat) returns (bins: seq<Bin>)
    requires InRange(pats, ix)
    ensures bins == Bins(pats, ix, innermask)
  {
    bins := [];
    for k := 0 to |ix|
      invariant bins == Bins(pats, ix[..k], innermask)
    {
      bins := AddToBins(bins, And(pats[ix[k]].FixedBits(), innermask), ix[k]);
      assert ix[..k + 1][..k] == ix[..k];
    }
    assert ix[..|ix|] == ix;
  }

  /** The source's loops: intersect the masks, fill the bins in order, build each bin. */
  method BuildTree(insnmask: nat, pats: seq<Node>, ix: seq<nat>, outermask: nat) returns (r: Option<Tree>)
    requires InRange(pats, ix)
    ensures r == Build(insnmask, pats, ix, outermask)
    decreases AndNot(insnmask, outermask), 0
  {
    var innermask := IntersectMasks(AndNot(insnmask, outermask), pats, ix);
    if innermask == 0 {
      return if |ix| == 1 then Some(Tree(outermask, innermask, [Edge(0, SubPat(ix[0]))])) else None;
    }
    var fullmask := Or(outermask, innermask);
    MaskGrows(insnmask, pats, ix, outermask);
    BinsPartition(pats, ix, innermask);
    var bins := FillBins(pats, ix, innermask);
    var subs := BuildEdges(insnmask, pats, bins, fullmask);
    return if subs.None? then None else Some(Tree(fullmask, innermask, subs.value));
  }

  method BuildEdges(insnmask: nat, pats: seq<Node>, bins: seq<Bin>, fullmask: nat) returns (r: Option<seq<Edge>>)
    requires GoodBins(pats, bins)
    ensures r == BuildSubs(insnmask, pats, bins, fullmask)
    decreases AndNot(insnmask, fullmask), 1
  {
    var subs: seq<Edge> := [];
    for k := 0 to |bins|
      invariant BuildSubs(insnmask, pats, bins[..k], fullmask) == Some(subs)
    {
      assert bins[..k + 1][..k] == bins[..k];
      var members := bins[k].members;
      var s: Sub := SubPat(members[0]);
      if |members| > 1 || AndNot(pats[members[0]].FixedMask(), fullmask) != 0 {
        var t := BuildTree(insnmask, pats, members, fullmask);
        if t.None? {
          BuildSubsFails(insnmask, pats, bins, fullmask, k);
          return None;
        }
        s := SubTree(t.value);
      }
      subs := subs + [Edge(bins[k].key, s)];
    }
    assert bins[..|bins|] == bins;
    return Some(subs);
  }

  lemma {:induction false} BuildSubsFails(insnmask: nat, pats: seq<Node>, bins: seq<Bin>, fullmask: nat, k: nat)
    requires GoodBins(pats, bins) && k < |bins|
    requires BuildBin(insnmask, pats, bins[k].members, fullmask) == None
    ensures BuildSubs(insnmask, pats, bins, fullmask) == None
  {
    if k < |bins| - 1 {
      BuildSubsFails(insnmask, pats, bins[..|bins| - 1], fullmask, k);
    }
  }

  lemma {:induction false} BuildSubsAt(insnmask: nat, pats: seq<Node>, bins: seq<Bin>, fullmask: nat, k: nat)
    requires GoodBins(pats, bins) && k < |bins|
    requires BuildSubs(insnmask, pats, bins, fullmask).Some?
    ensures BuildBin(insnmask, pats, bins[k].members, fullmask).Some?
    ensures BuildSubs(insnmask, pats, bins, fullmask).value[k]
      == Edge(bins[k].key, BuildBin(insnmask, pats, bins[k].members, fullmask).value)
  {
    if k < |bins| - 1 {
      BuildSubsAt(insnmask, pats, bins[..|bins| - 1], fullmask, k);
    }
  }

  /** The members still listed all fix the bits tested on the path. */
  predicate PathFixed(pats: seq<Node>, ix: seq<nat>, outermask: nat)
    requires InRange(pats, ix)
  {
    forall k :: 0 <= k < |ix| ==> Covers(pats[ix[k]].FixedMask(), outermask)
  }

  lemma FullMaskFixed(insnmask: nat, pats: seq<Node>, ix: seq<nat>, outermask: nat, k: nat)
    requires InRange(pats, ix) && PathFixed(pats, ix, outermask) && k < |ix|
    ensures Covers(pats[ix[k]].FixedMask(), Or(outermask, Meet(AndNot(insnmask, outermask), pats, ix)))
  {
    var inner := Meet(AndNot(insnmask, outermask), pats, ix);
    var m := pats[ix[k]].FixedMask();
    forall i: nat | Bit(Or(outermask, inner), i) ensures Bit(m, i) {
      BitOr(outermask, inner, i);
      MeetBit(AndNot(insnmask, outermask), pats, ix, i);
      if Bit(outermask, i) {
        assert Covers(m, outermask);
        CoversBit(m, outermask, i);
      }
    }
    CoversFromBits(m, Or(outermask, inner));
  }

  lemma SelectFixed(insnmask: nat, pats: seq<Node>, ix: seq<nat>, outermask: nat, inner: nat, key: nat)
    requires InRange(pats, ix) && PathFixed(pats, ix, outermask)
    requires inner == Meet(AndNot(insnmask, outermask), pats, ix)
    ensures PathFixed(pats, Select(pats, ix, inner, key), Or(outermask, inner))
  {
    var sel := Select(pats, ix, inner, key);
    forall j | 0 <= j < |sel| ensures Covers(pats[sel[j]].FixedMask(), Or(outermask, inner)) {
      assert sel[j] in ix;
      var k :| 0 <= k < |ix| && ix[k] == sel[j];
      FullMaskFixed(insnmask, pats, ix, outermask, k);
    }
  }

  /** Every listed member that matches the word is in the bin the word selects. */
  lemma {:induction false} MatchIsSelected(pats: seq<Node>, ix: seq<nat>, inner: nat, i: nat, insn: nat)
    requires InRange(pats, ix) && i in ix
    requires And(pats[i].FixedBits(), inner) == And(insn, inner)
    ensures i in Select(pats, ix, inner, And(insn, inner))
  {
    if ix[|ix| - 1] != i {
      MatchIsSelected(pats, ix[..|ix| - 1], inner, i, insn);
    }
  }

  lemma MeetCovered(insnmask: nat, pats: seq<Node>, ix: seq<nat>, outermask: nat, i: nat)
    requires InRange(pats, ix) && i in ix
    ensures Covers(pats[i].FixedMask(), Meet(AndNot(insnmask, outermask), pats, ix))
  {
    var inner := Meet(AndNot(insnmask, outermask), pats, ix);
    var k :| 0 <= k < |ix| && ix[k] == i;
    forall b: nat | Bit(inner, b) ensures Bit(pats[i].FixedMask(), b) {
      MeetBit(AndNot(insnmask, outermask), pats, ix, b);
    }
    CoversFromBits(pats[i].FixedMask(), inner);
  }

  /** A matching member agrees with the word on the bits tested here. */
  lemma MatchAgrees(insnmask: nat, pats: seq<Node>, ix: seq<nat>, outermask: nat, i: nat, insn: nat)
    requires InRange(pats, ix) && i in ix && pats[i].Matches(insn)
    ensures var inner := Meet(AndNot(insnmask, outermask), pats, ix);
      && And(pats[i].FixedBits(), inner) == And(insn, inner)
      && i in Select(pats, ix, inner, And(insn, inner))
  {
    var inner := Meet(AndNot(insnmask, outermask), pats, ix);
    MeetCovered(insnmask, pats, ix, outermask, i);
    NarrowMatch(insn, pats[i].FixedBits(), pats[i].FixedMask(), inner);
    MatchIsSelected(pats, ix, inner, i, insn);
  }

  /** The case a word selects: its bin, and what was built for it. */
  lemma SelectedEdge(insnmask: nat, pats: seq<Node>, ix: seq<nat>, outermask: nat, key: nat) returns (k: nat)
    requires InRange(pats, ix) && Build(insnmask, pats, ix, outermask).Some?
    requires Meet(AndNot(insnmask, outermask), pats, ix) != 0
    requires Select(pats, ix, Meet(AndNot(insnmask, outermask), pats, ix), key) != []
    ensures var inner := Meet(AndNot(insnmask, outermask), pats, ix);
      var t := Build(insnmask, pats, ix, outermask).value;
      var sel := Select(pats, ix, inner, key);
      && InRange(pats, sel)
      && k < |t.subs| && t.subs[k].bits == key
      && BuildBin(insnmask, pats, sel, Or(outermask, inner)) == Some(t.subs[k].sub)
  {
    var inner := Meet(AndNot(insnmask, outermask), pats, ix);
    var full := Or(outermask, inner);
    BinsPartition(pats, ix, inner);
    MaskGrows(insnmask, pats, ix, outermask);
    var bins := Bins(pats, ix, inner);
    assert HasKey(bins, key);
    k :| 0 <= k < |bins| && bins[k].key == key;
    BuildSubsAt(insnmask, pats, bins, full, k);
  }

  /** Soundness of the overlap check: once the tree is built, no word matches two
      members of the group. */
  lemma {:induction false} BuiltIsExclusive(insnmask: nat, pats: seq<Node>, ix: seq<nat>, outermask: nat, i: nat, j: nat, insn: nat)
    requires InRange(pats, ix) && Build(insnmask, pats, ix, outermask).Some?
    requires i in ix && j in ix && i != j
    ensures !(pats[i].Matches(insn) && pats[j].Matches(insn))
    decreases AndNot(insnmask, outermask)
  {
    var inner := Meet(AndNot(insnmask, outermask), pats, ix);
    if pats[i].Matches(insn) && pats[j].Matches(insn) && inner != 0 {
      var key := And(insn, inner);
      MatchAgrees(insnmask, pats, ix, outermask, i, insn);
      MatchAgrees(insnmask, pats, ix, outermask, j, insn);
      var k := SelectedEdge(insnmask, pats, ix, outermask, key);
      MaskGrows(insnmask, pats, ix, outermask);
      TwoMembers(Select(pats, ix, inner, key), i, j);
      BuiltIsExclusive(insnmask, pats, Select(pats, ix, inner, key), Or(outermask, inner), i, j, insn);
    } else if inner == 0 {
      TwoMembers(ix, i, j);
    }
  }

  lemma TwoMembers(s: seq<nat>, i: nat, j: nat)
    requires i in s && j in s && i != j
    ensures |s| > 1
  {}

  /** The mask accumulated on the path to a leaf is that member's whole fixed mask. */
  ghost predicate LeafMasksExact(pats: seq<Node>, t: Tree, outermask: nat) {
    forall k :: 0 <= k < |t.subs| ==> EdgeMasksExact(pats, t.subs[k].sub, Or(outermask, t.thismask))
  }

  ghost predicate EdgeMasksExact(pats: seq<Node>, s: Sub, pathmask: nat) {
    match s
    case SubPat(i) => i < |pats| && pats[i].FixedMask() == pathmask
    case SubTree(t) => t.fixedmask == Or(pathmask, t.thismask) && LeafMasksExact(pats, t, pathmask)
  }

  lemma CoversBothWays(a: nat, b: nat)
    requires Covers(a, b) && Covers(b, a)
    ensures a == b
  {
    CoveredIsSmaller(a, b);
    CoveredIsSmaller(b, a);
  }

  lemma OrZero(x: nat)
    ensures Or(x, 0) == x
  {}

  lemma {:induction false} BuiltLeafMasks(insnmask: nat, pats: seq<Node>, ix: seq<nat>, outermask: nat)
    requires InRange(pats, ix) && PathFixed(pats, ix, outermask)
    requires forall k :: 0 <= k < |ix| ==> Covers(insnmask, pats[ix[k]].FixedMask())
    requires Build(insnmask, pats, ix, outermask).Some?
    ensures EdgeMasksExact(pats, SubTree(Build(insnmask, pats, ix, outermask).value), outermask)
    decreases AndNot(insnmask, outermask)
  {
    var t := Build(insnmask, pats, ix, outermask).value;
    var inner := Meet(AndNot(insnmask, outermask), pats, ix);
    if inner == 0 {
      EdgeCase(insnmask, pats, ix, outermask);
      OrZero(outermask);
    } else {
      var full := Or(outermask, inner);
      BinsPartition(pats, ix, inner);
      MaskGrows(insnmask, pats, ix, outermask);
      var bins := Bins(pats, ix, inner);
      forall k | 0 <= k < |t.subs| ensures EdgeMasksExact(pats, t.subs[k].sub, full) {
        BuildSubsAt(insnmask, pats, bins, full, k);
        var members := bins[k].members;
        SelectFixed(insnmask, pats, ix, outermask, inner, bins[k].key);
        if t.subs[k].sub.SubTree? {
          BuiltLeafMasks(insnmask, pats, members, full);
        } else {
          assert Covers(full, pats[members[0]].FixedMask());
          CoversBothWays(full, pats[members[0]].FixedMask());
        }
      }
    }
  }

  /** The remaining single member is already fully tested. */
  lemma EdgeCase(insnmask: nat, pats: seq<Node>, ix: seq<nat>, outermask: nat)
    requires |ix| == 1 && InRange(pats, ix) && PathFixed(pats, ix, outermask)
    requires Covers(insnmask, pats[ix[0]].FixedMask())
    requires Meet(AndNot(insnmask, outermask), pats, ix) == 0
    ensures pats[ix[0]].FixedMask() == outermask
  {
    var m := pats[ix[0]].FixedMask();
    forall i: nat | Bit(m, i) ensures Bit(outermask, i) {
      CoversBit(insnmask, m, i);
      MeetBit(AndNot(insnmask, outermask), pats, ix, i);
      BitZero(i);
      BitAndNot(insnmask, outermask, i);
    }
    CoversFromBits(outermask, m);
    CoversBothWays(outermask, m);
  }

  // ---- the overlap check is not complete ----

  function Fixed(bits: nat, mask: nat): Node {
    Leaf(Pattern("", 0, Format("", "", {}, {}), bits, mask, {}, {}))
  }

  /** Over three bits: .10 (bit 0 clear, bit 1 set), 10. and 0.1. */
  function Triangle(): seq<Node> {
    [Fixed(2, 3), Fixed(4, 6), Fixed(1, 5)]
  }

  lemma BitsApart(a: Node, b: Node, i: nat, insn: nat)
    requires a.Matches(insn) && b.Matches(insn) && Bit(a.FixedMask(), i) && Bit(b.FixedMask(), i)
    ensures Bit(a.FixedBits(), i) == Bit(b.FixedBits(), i)
  {
    BitAnd(insn, a.FixedMask(), i);
    BitAnd(a.FixedBits(), a.FixedMask(), i);
    BitAnd(insn, b.FixedMask(), i);
    BitAnd(b.FixedBits(), b.FixedMask(), i);
  }

  lemma SmallBits()
    ensures Bit(3, 0) && Bit(3, 1) && !Bit(6, 0) && Bit(6, 1) && Bit(6, 2) && Bit(5, 0) && Bit(5, 2)
    ensures !Bit(2, 0) && Bit(2, 1) && !Bit(4, 1) && Bit(4, 2) && Bit(1, 0) && !Bit(1, 2)
  {
    assert Bit(1, 0) && Bit(3, 1) && Bit(2, 1) && Bit(5, 2) && Bit(6, 2) && Bit(4, 2);
    assert !Bit(1, 2) by { assert !Bit(0, 1); }
  }

  /** Three patterns, no two of which a word can match, are rejected all the same: no bit is
      fixed by all three. */
  lemma DisjointButRejected()
    ensures forall i, j, insn: nat :: 0 <= i < j < 3 && Triangle()[i].Matches(insn) ==> !Triangle()[j].Matches(insn)
    ensures Build(7, Triangle(), [0, 1, 2], 0).None?
  {
    SmallBits();
    forall i, j, insn: nat | 0 <= i < j < 3 && Triangle()[i].Matches(insn) ensures !Triangle()[j].Matches(insn) {
      if Triangle()[j].Matches(insn) {
        BitsApart(Triangle()[i], Triangle()[j], if i == 0 && j == 1 then 1 else if i == 0 then 0 else 2, insn);
      }
    }
    NothingShared();
  }

  lemma NothingShared()
    ensures Meet(AndNot(7, 0), Triangle(), [0, 1, 2]) == 0
  {
    var ix := [0, 1, 2];
    assert ix[..2] == [0, 1] && [0, 1][..1] == [0] && [0][..0] == [];
    assert And(7, 3) == 3 by { assert And(3, 1) == 1; }
    assert And(3, 6) == 2 by { assert And(1, 3) == 1; }
    assert And(2, 5) == 0 by { assert And(1, 2) == 0; }
    assert Meet(7, Triangle(), []) == 7;
    assert Meet(7, Triangle(), [0]) == 3;
    assert Meet(7, Triangle(), [0, 1]) == 2;
  }
}
