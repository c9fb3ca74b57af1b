/** Exactly which groups the generator rejects as overlapping
    (scripts/decodetree.py, ExcMultiPattern.__build_tree, lines 787-833). */
module DecodeOverlap {
  import opened BitOps
  import opened DecodeMasks
  import opened DecodeTree
  import opened DecodeEmit

  predicate AllFix(pats: seq<Node>, s: set<nat>, i: nat)
    requires forall a :: a in s ==> a < |pats|
  {
    forall a :: a in s ==> Bit(pats[a].FixedMask(), i)
  }

  predicate AllAgree(pats: seq<Node>, s: set<nat>, i: nat)
    requires forall a :: a in s ==> a < |pats|
  {
    forall a, b :: a in s && b in s ==> Bit(pats[a].FixedBits(), i) == Bit(pats[b].FixedBits(), i)
  }

  /** Several members that no bit they all fix tells apart. */
  ghost predicate Inseparable(insnmask: nat, pats: seq<Node>, s: set<nat>) {
    && 2 <= |s| && (forall a :: a in s ==> a < |pats|)
    && forall i: nat :: Bit(insnmask, i) && AllFix(pats, s, i) ==> AllAgree(pats, s, i)
  }

  /** Among the listed members. */
  ghost predicate HasInseparable(insnmask: nat, pats: seq<Node>, ix: seq<nat>) {
    exists s :: Inseparable(insnmask, pats, s) && Within(s, ix)
  }

  predicate Within(s: set<nat>, ix: seq<nat>) {
    forall a :: a in s ==> a in ix
  }

  predicate NoRepeats(ix: seq<nat>) {
    forall j, k :: 0 <= j < k < |ix| ==> ix[j] != ix[k]
  }

  /** The listed members have the same values at the bits of the mask. */
  ghost predicate AgreeAt(pats: seq<Node>, ix: seq<nat>, mask: nat)
    requires InRange(pats, ix)
  {
    forall i: nat :: Bit(mask, i) ==> AgreeOnBit(pats, ix, i)
  }

  predicate AgreeOnBit(pats: seq<Node>, ix: seq<nat>, i: nat)
    requires InRange(pats, ix)
  {
    forall j, k :: 0 <= j < |ix| && 0 <= k < |ix| ==> Bit(pats[ix[j]].FixedBits(), i) == Bit(pats[ix[k]].FixedBits(), i)
  }

  // ---- inseparable members stay together ----

  lemma {:induction false} SelectHolds(pats: seq<Node>, ix: seq<nat>, inner: nat, key: nat, a: nat)
    requires InRange(pats, ix) && a in ix && And(pats[a].FixedBits(), inner) == key
    ensures a in Select(pats, ix, inner, key)
  {
    if ix[|ix| - 1] != a {
      SelectHolds(pats, ix[..|ix| - 1], inner, key, a);
    }
  }

  /** What is tested here does not tell them apart. */
  lemma SameKey(insnmask: nat, pats: seq<Node>, ix: seq<nat>, outermask: nat, s: set<nat>, a: nat, b: nat)
    requires InRange(pats, ix) && Within(s, ix) && Inseparable(insnmask, pats, s) && a in s && b in s
    ensures var inner := Meet(AndNot(insnmask, outermask), pats, ix);
      And(pats[a].FixedBits(), inner) == And(pats[b].FixedBits(), inner)
  {
    var inner := Meet(AndNot(insnmask, outermask), pats, ix);
    forall i: nat ensures Bit(And(pats[a].FixedBits(), inner), i) == Bit(And(pats[b].FixedBits(), inner), i) {
      BitAnd(pats[a].FixedBits(), inner, i);
      BitAnd(pats[b].FixedBits(), inner, i);
      if Bit(inner, i) {
        InnerFixed(insnmask, pats, ix, outermask, s, i);
        assert AllAgree(pats, s, i);
      }
    }
    BitExtensional(And(pats[a].FixedBits(), inner), And(pats[b].FixedBits(), inner));
  }

  lemma InnerFixed(insnmask: nat, pats: seq<Node>, ix: seq<nat>, outermask: nat, s: set<nat>, i: nat)
    requires InRange(pats, ix) && Within(s, ix) && (forall a :: a in s ==> a < |pats|)
    requires Bit(Meet(AndNot(insnmask, outermask), pats, ix), i)
    ensures Bit(insnmask, i) && AllFix(pats, s, i)
  {
    MeetBit(AndNot(insnmask, outermask), pats, ix, i);
    BitAndNot(insnmask, outermask, i);
  }

  lemma TwoListed(s: set<nat>, ix: seq<nat>) returns (a: nat)
    requires 2 <= |s| && Within(s, ix)
    ensures a in s && |ix| > 1
  {
    a :| a in s;
    var rest := s - {a};
    assert |rest| == |s| - 1;
    var b :| b in rest;
    assert a in ix && b in ix;
  }

  /** They end up in one bin until no common bit is left. */
  lemma {:induction false} InseparableFails(insnmask: nat, pats: seq<Node>, ix: seq<nat>, outermask: nat, s: set<nat>)
    requires InRange(pats, ix) && Within(s, ix) && Inseparable(insnmask, pats, s)
    ensures Build(insnmask, pats, ix, outermask).None?
    decreases AndNot(insnmask, outermask)
  {
    var inner := Meet(AndNot(insnmask, outermask), pats, ix);
    var a := TwoListed(s, ix);
    if inner != 0 {
      var key := And(pats[a].FixedBits(), inner);
      forall b | b in s ensures b in Select(pats, ix, inner, key) {
        SameKey(insnmask, pats, ix, outermask, s, a, b);
        SelectHolds(pats, ix, inner, key, b);
      }
      MaskGrows(insnmask, pats, ix, outermask);
      InseparableFails(insnmask, pats, Select(pats, ix, inner, key), Or(outermask, inner), s);
      BinFails(insnmask, pats, ix, outermask, key, s);
    }
  }

  lemma BinFails(insnmask: nat, pats: seq<Node>, ix: seq<nat>, outermask: nat, key: nat, s: set<nat>)
    requires InRange(pats, ix)
    requires var inner := Meet(AndNot(insnmask, outermask), pats, ix);
      && inner != 0
      && Within(s, Select(pats, ix, inner, key)) && 2 <= |s|
      && InRange(pats, Select(pats, ix, inner, key))
      && Build(insnmask, pats, Select(pats, ix, inner, key), Or(outermask, inner)).None?
    ensures Build(insnmask, pats, ix, outermask).None?
  {
    var inner := Meet(AndNot(insnmask, outermask), pats, ix);
    var a := TwoListed(s, Select(pats, ix, inner, key));
    BinsPartition(pats, ix, inner);
    MaskGrows(insnmask, pats, ix, outermask);
    var bins := Bins(pats, ix, inner);
    assert HasKey(bins, key);
    var k :| 0 <= k < |bins| && bins[k].key == key;
    BuildSubsFails(insnmask, pats, bins, Or(outermask, inner), k);
  }

  // ---- a failure has inseparable members ----

  lemma {:induction false} SomeBinFails(insnmask: nat, pats: seq<Node>, bins: seq<Bin>, fullmask: nat) returns (k: nat)
    requires GoodBins(pats, bins) && BuildSubs(insnmask, pats, bins, fullmask).None?
    ensures k < |bins| && BuildBin(insnmask, pats, bins[k].members, fullmask).None?
  {
    var n := |bins| - 1;
    if BuildSubs(insnmask, pats, bins[..n], fullmask).None? {
      k := SomeBinFails(insnmask, pats, bins[..n], fullmask);
    } else {
      k := n;
    }
  }

  lemma {:induction false} SelectNoRepeats(pats: seq<Node>, ix: seq<nat>, inner: nat, key: nat)
    requires InRange(pats, ix) && NoRepeats(ix)
    ensures NoRepeats(Select(pats, ix, inner, key))
  {
    if |ix| > 0 {
      var front := ix[..|ix| - 1];
      SelectNoRepeats(pats, front, inner, key);
      var sel := Select(pats, front, inner, key);
      forall j | 0 <= j < |sel| ensures sel[j] != ix[|ix| - 1] {
        assert sel[j] in front;
      }
    }
  }

  /** One bin: its members also agree on what was tested to select it. */
  lemma SelectAgrees(pats: seq<Node>, ix: seq<nat>, outermask: nat, inner: nat, key: nat)
    requires InRange(pats, ix) && AgreeAt(pats, ix, outermask)
    ensures InRange(pats, Select(pats, ix, inner, key))
    ensures AgreeAt(pats, Select(pats, ix, inner, key), Or(outermask, inner))
  {
    var sel := Select(pats, ix, inner, key);
    assert InRange(pats, sel) by {
      forall k | 0 <= k < |sel| ensures sel[k] < |pats| {
        assert sel[k] in ix;
      }
    }
    forall i: nat | Bit(Or(outermask, inner), i) ensures AgreeOnBit(pats, sel, i) {
      BitOr(outermask, inner, i);
      forall j, k | 0 <= j < |sel| && 0 <= k < |sel|
        ensures Bit(pats[sel[j]].FixedBits(), i) == Bit(pats[sel[k]].FixedBits(), i)
      {
        assert sel[j] in ix && sel[k] in ix;
        if Bit(outermask, i) {
          assert AgreeOnBit(pats, ix, i);
        } else {
          BitAnd(pats[sel[j]].FixedBits(), inner, i);
          BitAnd(pats[sel[k]].FixedBits(), inner, i);
        }
      }
    }
  }

  function Elements(ix: seq<nat>): set<nat> {
    set a | a in ix
  }

  /** Nothing left to test: all that are listed are inseparable. */
  lemma StuckIsInseparable(insnmask: nat, pats: seq<Node>, ix: seq<nat>, outermask: nat)
    requires InRange(pats, ix) && NoRepeats(ix) && AgreeAt(pats, ix, outermask) && |ix| > 1
    requires Meet(AndNot(insnmask, outermask), pats, ix) == 0
    ensures Inseparable(insnmask, pats, Elements(ix))
  {
    var s := Elements(ix);
    assert |s| >= 2 by {
      assert ix[0] in s && ix[1] in s - {ix[0]};
      assert |s - {ix[0]}| == |s| - 1;
    }
    forall i: nat | Bit(insnmask, i) && AllFix(pats, s, i) ensures AllAgree(pats, s, i) {
      forall k | 0 <= k < |ix| ensures Bit(pats[ix[k]].FixedMask(), i) {
        assert ix[k] in s;
      }
      MeetBit(AndNot(insnmask, outermask), pats, ix, i);
      BitAndNot(insnmask, outermask, i);
      BitZero(i);
      assert AgreeOnBit(pats, ix, i);
    }
  }

  lemma {:induction false} FailureIsInseparable(insnmask: nat, pats: seq<Node>, ix: seq<nat>, outermask: nat) returns (s: set<nat>)
    requires InRange(pats, ix) && NoRepeats(ix) && AgreeAt(pats, ix, outermask) && |ix| > 0
    requires Build(insnmask, pats, ix, outermask).None?
    ensures Inseparable(insnmask, pats, s) && Within(s, ix)
    decreases AndNot(insnmask, outermask)
  {
    var inner := Meet(AndNot(insnmask, outermask), pats, ix);
    if inner == 0 {
      StuckIsInseparable(insnmask, pats, ix, outermask);
      s := Elements(ix);
    } else {
      var full := Or(outermask, inner);
      BinsPartition(pats, ix, inner);
      MaskGrows(insnmask, pats, ix, outermask);
      var bins := Bins(pats, ix, inner);
      var k := SomeBinFails(insnmask, pats, bins, full);
      SelectAgrees(pats, ix, outermask, inner, bins[k].key);
      SelectNoRepeats(pats, ix, inner, bins[k].key);
      s := FailureIsInseparable(insnmask, pats, bins[k].members, full);
      forall a | a in s ensures a in ix {
        assert a in bins[k].members;
      }
    }
  }

  /** A group is rejected exactly if some of its members, at least two, are told apart by no bit they
      all fix. */
  lemma RejectedIff(insnmask: nat, pats: seq<Node>, ix: seq<nat>, outermask: nat)
    requires InRange(pats, ix) && NoRepeats(ix) && AgreeAt(pats, ix, outermask) && |ix| > 0
    ensures Build(insnmask, pats, ix, outermask).None? <==> HasInseparable(insnmask, pats, ix)
  {
    if Build(insnmask, pats, ix, outermask).None? {
      var s := FailureIsInseparable(insnmask, pats, ix, outermask);
    }
    if HasInseparable(insnmask, pats, ix) {
      var s :| Inseparable(insnmask, pats, s) && Within(s, ix);
      InseparableFails(insnmask, pats, ix, outermask, s);
    }
  }

  // ---- whole pattern trees ----

  /** Some exclusive group has members nothing tells apart. */
  ghost predicate Overlaps(insnmask: nat, n: Node) {
    match n
    case Leaf(_) => false
    case Inc(_, _, ps) => exists i :: 0 <= i < |ps| && Overlaps(insnmask, ps[i])
    case Exc(_, _, ps) => (exists s :: Inseparable(insnmask, ps, s)) || exists i :: 0 <= i < |ps| && Overlaps(insnmask, ps[i])
  }

  lemma GroupRejectedIff(insnmask: nat, n: Node)
    requires n.Exc? && |n.pats| > 0 && AgreeAt(n.pats, Iota(|n.pats|), n.mask)
    ensures TreeOf(insnmask, n).None? <==> exists s :: Inseparable(insnmask, n.pats, s)
  {
    var ix := Iota(|n.pats|);
    RejectedIff(insnmask, n.pats, ix, n.mask);
    if s :| Inseparable(insnmask, n.pats, s) {
      forall a | a in s ensures a in ix {
        assert ix[a] == a;
      }
    }
  }

  /** A propagated group mask holds bits its members agree on. */
  lemma MaskAgrees(insnmask: nat, n: Node)
    requires !n.Leaf? && Annotated(insnmask, n)
    ensures AgreeAt(n.pats, Iota(|n.pats|), n.mask)
  {
    forall i: nat | Bit(n.mask, i) ensures AgreeOnBit(n.pats, Iota(|n.pats|), i) {
      assert AgreedBit(insnmask, n.pats, i);
    }
  }

  /** Every tree can be built exactly if no exclusive group overlaps. */
  lemma {:induction false} BuildsIff(insnmask: nat, n: Node)
    requires WellFormed(insnmask, n) && Annotated(insnmask, n)
    ensures Builds(insnmask, n) <==> !Overlaps(insnmask, n)
  {
    if !n.Leaf? {
      forall i | 0 <= i < |n.pats| ensures Builds(insnmask, n.pats[i]) <==> !Overlaps(insnmask, n.pats[i]) {
        BuildsIff(insnmask, n.pats[i]);
      }
      if n.Exc? {
        MaskAgrees(insnmask, n);
        GroupRejectedIff(insnmask, n);
      }
    }
  }

  lemma EmptyGroup(insnmask: nat)
    ensures Builds(insnmask, Exc(0, 0, [])) <==> insnmask != 0
  {
    var top: Node := Exc(0, 0, []);
    assert Iota(|top.pats|) == [];
    assert Builds(insnmask, top) <==> Build(insnmask, [], [], 0).Some?;
    EmptyBuild(insnmask);
    forall i: nat ensures Bit(AndNot(insnmask, 0), i) == Bit(insnmask, i) {
      BitAndNot(insnmask, 0, i);
      BitZero(i);
    }
    BitExtensional(AndNot(insnmask, 0), insnmask);
  }

  lemma EmptyBuild(insnmask: nat)
    ensures Build(insnmask, [], [], 0).Some? <==> AndNot(insnmask, 0) != 0
  {
    var inner := Meet(AndNot(insnmask, 0), [], []);
    if inner != 0 {
      assert Bins([], [], inner) == [];
      assert BuildSubs(insnmask, [], [], Or(0, inner)) == DecodeTree.Some([]);
    }
  }

  /** The top group, whose mask is empty: the file is rejected exactly if some exclusive group
      overlaps (or if it is empty and instructions have no bits). */
  lemma TopBuildsIff(insnmask: nat, pats: seq<Node>)
    requires forall i :: 0 <= i < |pats| ==> WellFormed(insnmask, pats[i]) && Annotated(insnmask, pats[i])
    ensures Builds(insnmask, Exc(0, 0, pats)) <==> !Overlaps(insnmask, Exc(0, 0, pats)) && (|pats| > 0 || insnmask > 0)
  {
    var top := Exc(0, 0, pats);
    if |pats| == 0 {
      EmptyGroup(insnmask);
      NothingInseparable(insnmask, pats);
    } else {
      forall i | 0 <= i < |pats| ensures Builds(insnmask, pats[i]) <==> !Overlaps(insnmask, pats[i]) {
        BuildsIff(insnmask, pats[i]);
      }
      forall i: nat ensures !Bit(0, i) {
        BitZero(i);
      }
      GroupRejectedIff(insnmask, top);
    }
  }

  lemma NothingInseparable(insnmask: nat, pats: seq<Node>)
    requires |pats| == 0
    ensures !exists s :: Inseparable(insnmask, pats, s)
  {
    forall s: set<nat> ensures !Inseparable(insnmask, pats, s) {
      if 2 <= |s| {
        assert exists a :: a in s;
      }
    }
  }

}
