/** Pattern trees of the decoder generator and the propagation of fixed-bit masks
    through them (scripts/decodetree.py, classes Pattern and MultiPattern). */
module DecodeMasks {
  import opened BitOps

  /** The argument set `arg` is the union member a format fills in; `dangling` are the
      names its fields refer to but the format itself does not define. */
  datatype Format = Format(name: string, arg: string, fields: set<string>, dangling: set<string>)

  datatype Pattern = Pattern(
    name: string,
    lineno: nat,
    base: Format,
    fixedbits: nat,
    fixedmask: nat,
    fields: set<string>,
    dangling: set<string>)

  /** `Inc` is an inclusive `{}` group, `Exc` an exclusive `[]` group; both carry the
      fields that prop_masks fills in. */
  datatype Node =
    | Leaf(p: Pattern)
    | Inc(bits: nat, mask: nat, pats: seq<Node>)
    | Exc(bits: nat, mask: nat, pats: seq<Node>)
  {
    function FixedBits(): nat {
      if Leaf? then p.fixedbits else bits
    }

    function FixedMask(): nat {
      if Leaf? then p.fixedmask else mask
    }

    /** The word agrees with the fixed bits of this pattern or group. */
    predicate Matches(insn: nat) {
      And(insn, FixedMask()) == And(FixedBits(), FixedMask())
    }
  }

  /** What the parser guarantees of a pattern (lines 1188-1220), and what output_code
      checks of its references before emitting anything (lines 572-584). */
  predicate WellFormedPattern(insnmask: nat, p: Pattern) {
    && Covers(insnmask, p.fixedmask)
    && Covers(p.fixedmask, p.fixedbits)
    && p.fields !! p.base.fields
    && p.base.dangling <= p.fields
    && p.dangling <= p.base.fields
    && (p.base.dangling == {} || p.dangling == {})
  }

  predicate WellFormed(insnmask: nat, n: Node) {
    match n
    case Leaf(p) => WellFormedPattern(insnmask, p)
    case _ => |n.pats| > 0 && forall i :: 0 <= i < |n.pats| ==> WellFormed(insnmask, n.pats[i])
  }

  /** All members have the same value at this bit. */
  ghost predicate SharedBit(ps: seq<Node>, i: nat) {
    forall k :: 0 <= k < |ps| ==> Bit(ps[k].FixedBits(), i) == Bit(ps[0].FixedBits(), i)
  }

  /** The bits every member fixes, and fixes alike. */
  ghost predicate AgreedBit(insnmask: nat, ps: seq<Node>, i: nat) {
    && Bit(insnmask, i)
    && (forall k :: 0 <= k < |ps| ==> Bit(ps[k].FixedMask(), i))
    && SharedBit(ps, i)
  }

  ghost predicate IsAgreement(insnmask: nat, ps: seq<Node>, mask: nat) {
    forall i: nat :: Bit(mask, i) <==> AgreedBit(insnmask, ps, i)
  }

  /** Every group's mask is the agreement of its members, and its bits are the shared
      ones.  A group whose members share no bit may hold stale bits. */
  ghost predicate Annotated(insnmask: nat, n: Node) {
    n.Leaf? || (
      && |n.pats| > 0
      && IsAgreement(insnmask, n.pats, n.mask)
      && (n.mask != 0 ==> n.bits == And(n.pats[0].FixedBits(), n.mask))
      && forall i :: 0 <= i < |n.pats| ==> Annotated(insnmask, n.pats[i]))
  }

  /** Same groups, same patterns; only the propagated fields may differ. */
  ghost predicate SameShape(a: Node, b: Node) {
    match a
    case Leaf(p) => b == a
    case Inc(_, _, ps) =>
      b.Inc? && |b.pats| == |ps| && forall i :: 0 <= i < |ps| ==> SameShape(ps[i], b.pats[i])
    case Exc(_, _, ps) =>
      b.Exc? && |b.pats| == |ps| && forall i :: 0 <= i < |ps| ==> SameShape(ps[i], b.pats[i])
  }

  /** Shrinks the mask until all members agree on it (lines 647-659).  `agreed` is any
      set of bits all members fix alike: none of them is ever lost. */
  method AgreeOn(ps: seq<Node>, startmask: nat) returns (fixedbits: nat, fixedmask: nat)
    requires |ps| > 0
    ensures forall i: nat :: Bit(fixedmask, i) <==> Bit(startmask, i) && SharedBit(ps, i)
    ensures fixedmask != 0 ==> fixedbits == And(ps[0].FixedBits(), fixedmask)
  {
    fixedbits, fixedmask := 0, startmask;
    var repeat_ := true;
    BitLaws();
    while repeat_ && fixedmask != 0
      invariant forall i: nat :: Bit(fixedmask, i) ==> Bit(startmask, i)
      invariant forall i: nat :: Bit(startmask, i) && SharedBit(ps, i) ==> Bit(fixedmask, i)
      invariant !repeat_ ==> fixedbits == And(ps[0].FixedBits(), fixedmask)
      invariant !repeat_ ==> forall k :: 0 <= k < |ps| ==> And(ps[k].FixedBits(), fixedmask) == fixedbits
      decreases fixedmask, repeat_
    {
      ghost var before := fixedmask;
      var k, differs := 0, false;
      while k < |ps| && !differs
        invariant 0 <= k <= |ps|
        invariant !differs ==> fixedmask == before
        invariant !differs && k > 0 ==> fixedbits == And(ps[0].FixedBits(), before)
        invariant !differs ==> forall j :: 0 <= j < k ==> And(ps[j].FixedBits(), before) == fixedbits
        invariant differs ==> 0 < k && fixedmask != before
        invariant differs ==>
          fixedmask == AndNot(before, Xor(And(ps[0].FixedBits(), before), And(ps[k - 1].FixedBits(), before)))
        decreases |ps| - k, differs
      {
        var thisbits := And(ps[k].FixedBits(), fixedmask);
        if k == 0 {
          fixedbits := thisbits;
        } else if fixedbits != thisbits {
          Disagreement(fixedbits, thisbits, ps[0].FixedBits(), ps[k].FixedBits(), fixedmask);
          fixedmask := AndNot(fixedmask, Xor(fixedbits, thisbits));
          differs := true;
        }
        k := k + 1;
      }
      if !differs {
        repeat_ := false;
      } else {
        CoversFromBits(before, fixedmask);
        CoveredIsSmaller(before, fixedmask);
      }
    }
    forall i: nat | Bit(fixedmask, i)
      ensures SharedBit(ps, i)
    {
      forall k | 0 <= k < |ps| ensures Bit(ps[k].FixedBits(), i) == Bit(ps[0].FixedBits(), i) {
        assert fixedmask != 0;
        BitAnd(ps[k].FixedBits(), fixedmask, i);
        BitAnd(ps[0].FixedBits(), fixedmask, i);
      }
    }
  }

  /** Dropping the bits two members disagree on really drops one. */
  lemma Disagreement(fixedbits: nat, thisbits: nat, a: nat, b: nat, mask: nat)
    requires fixedbits == And(a, mask) && thisbits == And(b, mask) && fixedbits != thisbits
    ensures AndNot(mask, Xor(fixedbits, thisbits)) != mask
  {
    if forall i: nat :: Bit(fixedbits, i) == Bit(thisbits, i) {
      BitExtensional(fixedbits, thisbits);
      assert false;
    }
    var i: nat :| Bit(fixedbits, i) != Bit(thisbits, i);
    BitAnd(a, mask, i);
    BitAnd(b, mask, i);
    BitXor(fixedbits, thisbits, i);
    BitAndNot(mask, Xor(fixedbits, thisbits), i);
  }

  /** MultiPattern.prop_masks (lines 634-663), depth first over the tree. */
  method PropMasks(insnmask: nat, n: Node) returns (r: Node)
    requires WellFormed(insnmask, n)
    ensures WellFormed(insnmask, r) && SameShape(n, r) && Annotated(insnmask, r)
    decreases n
  {
    if n.Leaf? {
      return n;
    }
    var pats: seq<Node> := [];
    var fixedmask := insnmask;
    for i := 0 to |n.pats|
      invariant |pats| == i
      invariant forall k :: 0 <= k < i ==> SameShape(n.pats[k], pats[k])
      invariant forall k :: 0 <= k < i ==> WellFormed(insnmask, pats[k]) && Annotated(insnmask, pats[k])
      invariant forall b: nat :: Bit(fixedmask, b) <==>
        Bit(insnmask, b) && forall k :: 0 <= k < i ==> Bit(pats[k].FixedMask(), b)
    {
      var c := PropMasks(insnmask, n.pats[i]);
      ghost var before, done := fixedmask, pats;
      fixedmask := And(fixedmask, c.FixedMask());
      pats := pats + [c];
      forall b: nat
        ensures Bit(fixedmask, b) <==> Bit(insnmask, b) && forall k :: 0 <= k < i + 1 ==> Bit(pats[k].FixedMask(), b)
      {
        BitAnd(before, c.FixedMask(), b);
        assert pats[i] == c;
        assert forall k :: 0 <= k < i ==> pats[k] == done[k];
      }
    }
    var bits, mask := AgreeOn(pats, fixedmask);
    assert IsAgreement(insnmask, pats, mask);
    r := if n.Inc? then Inc(bits, mask, pats) else Exc(bits, mask, pats);
  }

  /** The agreement is the greatest mask within every member's mask on which all members
      agree, and it is the only such mask. */
  lemma AgreementIsGreatest(insnmask: nat, ps: seq<Node>, mask: nat, other: nat)
    requires |ps| > 0 && IsAgreement(insnmask, ps, mask)
    requires Covers(insnmask, other)
    requires forall k :: 0 <= k < |ps| ==> Covers(ps[k].FixedMask(), other)
    requires forall k :: 0 <= k < |ps| ==> And(ps[k].FixedBits(), other) == And(ps[0].FixedBits(), other)
    ensures Covers(mask, other)
    ensures forall k :: 0 <= k < |ps| ==> Covers(ps[k].FixedMask(), mask)
    ensures forall k :: 0 <= k < |ps| ==> And(ps[k].FixedBits(), mask) == And(ps[0].FixedBits(), mask)
  {
    forall i: nat | Bit(other, i) ensures Bit(mask, i) {
      CoversBit(insnmask, other, i);
      forall k | 0 <= k < |ps|
        ensures Bit(ps[k].FixedMask(), i) && Bit(ps[k].FixedBits(), i) == Bit(ps[0].FixedBits(), i)
      {
        CoversBit(ps[k].FixedMask(), other, i);
        BitAnd(ps[k].FixedBits(), other, i);
        BitAnd(ps[0].FixedBits(), other, i);
      }
      assert AgreedBit(insnmask, ps, i);
    }
    CoversFromBits(mask, other);
    forall k | 0 <= k < |ps|
      ensures Covers(ps[k].FixedMask(), mask) && And(ps[k].FixedBits(), mask) == And(ps[0].FixedBits(), mask)
    {
      AgreementMember(insnmask, ps, mask, k);
    }
  }

  lemma AgreementMember(insnmask: nat, ps: seq<Node>, mask: nat, k: nat)
    requires k < |ps| && IsAgreement(insnmask, ps, mask)
    ensures Covers(insnmask, mask)
    ensures Covers(ps[k].FixedMask(), mask)
    ensures And(ps[k].FixedBits(), mask) == And(ps[0].FixedBits(), mask)
  {
    forall i: nat | Bit(mask, i) ensures Bit(ps[k].FixedMask(), i) && Bit(insnmask, i) {
      assert AgreedBit(insnmask, ps, i);
    }
    CoversFromBits(insnmask, mask);
    CoversFromBits(ps[k].FixedMask(), mask);
    forall i: nat ensures Bit(And(ps[k].FixedBits(), mask), i) == Bit(And(ps[0].FixedBits(), mask), i) {
      BitAnd(ps[k].FixedBits(), mask, i);
      BitAnd(ps[0].FixedBits(), mask, i);
      assert Bit(mask, i) ==> AgreedBit(insnmask, ps, i);
    }
    BitExtensional(And(ps[k].FixedBits(), mask), And(ps[0].FixedBits(), mask));
  }

  /** A group fixes no more than each of its members does, so a word that misses the
      group misses every member. */
  lemma MemberMatchesGroup(insnmask: nat, n: Node, k: nat, insn: nat)
    requires !n.Leaf? && Annotated(insnmask, n) && k < |n.pats|
    ensures Covers(n.pats[k].FixedMask(), n.mask)
    ensures And(n.pats[k].FixedBits(), n.mask) == And(n.bits, n.mask)
    ensures n.pats[k].Matches(insn) ==> n.Matches(insn)
  {
    AgreementMember(insnmask, n.pats, n.mask, k);
    var c := n.pats[k];
    forall i: nat ensures Bit(And(c.FixedBits(), n.mask), i) == Bit(And(n.bits, n.mask), i) {
      BitAnd(n.pats[0].FixedBits(), n.mask, i);
      BitAnd(n.bits, n.mask, i);
      BitZero(i);
    }
    BitExtensional(And(c.FixedBits(), n.mask), And(n.bits, n.mask));
    if c.Matches(insn) {
      NarrowMatch(insn, c.FixedBits(), c.FixedMask(), n.mask);
    }
  }

  /** Agreement on a mask is agreement on any mask it covers. */
  lemma NarrowMatch(insn: nat, bits: nat, big: nat, small: nat)
    requires Covers(big, small) && And(insn, big) == And(bits, big)
    ensures And(insn, small) == And(bits, small)
  {
    forall i: nat ensures Bit(And(insn, small), i) == Bit(And(bits, small), i) {
      BitAnd(insn, small, i);
      BitAnd(bits, small, i);
      if Bit(small, i) {
        CoversBit(big, small, i);
        BitAnd(insn, big, i);
        BitAnd(bits, big, i);
      }
    }
    BitExtensional(And(insn, small), And(bits, small));
  }

  // ---- contiguous masks (lines 224-245) ----

  function LowestBit(x: nat): (r: nat)
    requires x != 0
    ensures Bit(x, r) && forall j: nat :: j < r ==> !Bit(x, j)
  {
    if x % 2 == 1 then 0
    else
      var r := LowestBit(x / 2);
      assert forall j: nat :: 0 < j < r + 1 && Bit(x, j) ==> Bit(x / 2, j - 1);
      r + 1
  }

  /** ctz: the loop of lines 229-235. */
  method CountTrailingZeros(x: nat) returns (r: nat)
    requires x != 0
    ensures r == LowestBit(x)
  {
    r := 0;
    while Shr(x, r) % 2 == 0
      invariant r <= LowestBit(x)
      decreases LowestBit(x) - r
    {
      BitShr(x, r, 0);
      r := r + 1;
    }
    BitShr(x, r, 0);
  }

  /** x & (x - 1) == 0, which zero passes too. */
  predicate IsPow2(x: nat) {
    x == 0 || And(x, x - 1) == 0
  }

  lemma {:induction false} AndSelf(x: nat)
    ensures And(x, x) == x
  {
    if x > 0 { AndSelf(x / 2); }
  }

  /** x & (x - 1) on the two parities. */
  lemma DropLowestBit(x: nat)
    requires x > 1
    ensures x % 2 == 0 ==> And(x, x - 1) == 2 * And(x / 2, x / 2 - 1)
    ensures x % 2 == 1 ==> And(x, x - 1) == 2 * (x / 2)
  {
    if x % 2 == 0 {
      assert (x - 1) / 2 == x / 2 - 1;
    } else {
      assert (x - 1) / 2 == x / 2;
      AndSelf(x / 2);
    }
  }

  lemma {:induction false} Pow2IsPow2(k: nat)
    ensures IsPow2(Pow2(k))
  {
    if k > 0 {
      Pow2IsPow2(k - 1);
      DropLowestBit(Pow2(k));
      assert Pow2(k) / 2 == Pow2(k - 1);
    }
  }

  lemma {:induction false} OnlyPow2(x: nat) returns (k: nat)
    requires x > 0 && IsPow2(x)
    ensures x == Pow2(k)
  {
    if x == 1 {
      k := 0;
    } else {
      DropLowestBit(x);
      k := OnlyPow2(x / 2);
      k := k + 1;
    }
  }

  /** is_pow2 holds exactly of zero and the powers of two. */
  lemma IsPow2Exact(x: nat)
    ensures IsPow2(x) <==> x == 0 || exists k: nat :: x == Pow2(k)
  {
    if x > 0 && IsPow2(x) {
      var k := OnlyPow2(x);
    }
    if k: nat :| x == Pow2(k) {
      Pow2IsPow2(k);
    }
  }

  /** is_contiguous: the shift of the mask, or -1. */
  function ContiguousShift(bits: nat): (s: int)
    ensures -1 <= s
  {
    if bits == 0 then -1
    else
      var shift := LowestBit(bits);
      if IsPow2(Shr(bits, shift) + 1) then shift else -1
  }

  method IsContiguous(bits: nat) returns (s: int)
    ensures s == ContiguousShift(bits)
  {
    if bits == 0 {
      return -1;
    }
    var shift := CountTrailingZeros(bits);
    if IsPow2(Shr(bits, shift) + 1) {
      return shift;
    } else {
      return -1;
    }
  }

  /** The set bits are exactly positions `s` to `s + k - 1`. */
  ghost predicate OneRun(bits: nat, s: nat, k: nat) {
    k > 0 && forall i: nat :: Bit(bits, i) <==> s <= i < s + k
  }

  /** is_contiguous answers -1 exactly when the set bits are no single run, and otherwise
      answers where the run starts. */
  lemma ContiguousShiftExact(bits: nat)
    ensures ContiguousShift(bits) >= 0 ==> exists k: nat :: OneRun(bits, ContiguousShift(bits), k)
    ensures forall s: nat, k: nat :: OneRun(bits, s, k) ==> ContiguousShift(bits) == s
  {
    if bits != 0 {
      var s := LowestBit(bits);
      var high := Shr(bits, s);
      IsPow2Exact(high + 1);
      if k: nat :| high + 1 == Pow2(k) {
        OnesValue(k);
        BitShr(bits, s, 0);
        if k == 0 { BitZero(0); assert false; }
        forall i: nat ensures Bit(bits, i) <==> s <= i < s + k {
          if i >= s {
            BitShr(bits, s, i - s);
            OnesBits(k, i - s);
          }
        }
        assert OneRun(bits, s, k);
      }
      forall s': nat, k: nat | OneRun(bits, s', k) ensures ContiguousShift(bits) == s' {
        RunShift(bits, s', k);
      }
    } else {
      forall s: nat, k: nat ensures !OneRun(bits, s, k) {
        BitZero(s);
      }
    }
  }

  lemma LowestOfRun(bits: nat, s: nat, k: nat)
    requires OneRun(bits, s, k) && bits != 0
    ensures LowestBit(bits) == s
  {
    assert Bit(bits, s);
    var low := LowestBit(bits);
    assert low == s;
  }

  lemma ShiftedRun(bits: nat, s: nat, k: nat)
    requires OneRun(bits, s, k)
    ensures Shr(bits, s) == Ones(k)
  {
    forall i: nat ensures Bit(Shr(bits, s), i) == Bit(Ones(k), i) {
      BitShr(bits, s, i);
      OnesBits(k, i);
    }
    BitExtensional(Shr(bits, s), Ones(k));
  }

  lemma RunShift(bits: nat, s: nat, k: nat)
    requires OneRun(bits, s, k) && bits != 0
    ensures ContiguousShift(bits) == s
  {
    LowestOfRun(bits, s, k);
    ShiftedRun(bits, s, k);
    OnesValue(k);
    IsPow2Exact(Pow2(k));
    assert IsPow2(Shr(bits, s) + 1);
  }
}
