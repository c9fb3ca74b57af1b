/** Meaning preservation: the nested switch/if code tries the same patterns, in the same
    order and with the same arguments, as the flat textual list of patterns would. */
module DecodeMeaning {
  import opened BitOps
  import opened DecodeMasks
  import opened DecodeTree
  import opened DecodeEmit
  import opened DecodeOverlap

  ghost predicate Meets(o: Outcome, ok: Attempt -> bool, ref: seq<Attempt>) {
    o.trace == UpToFirst(ok, ref) && o.returned == Accepted(ok, ref)
  }

  lemma {:induction false} RunConcat(a: seq<Stmt>, b: seq<Stmt>, insn: nat, ok: Attempt -> bool, u: Union)
    ensures var first := Run(a, insn, ok, u);
      Run(a + b, insn, ok, u) ==
        if first.returned then first
        else
          var rest := Run(b, insn, ok, first.u);
          Outcome(rest.u, first.trace + rest.trace, rest.returned)
  {
    if |a| == 0 {
      assert a + b == b;
      assert [] + Run(b, insn, ok, u).trace == Run(b, insn, ok, u).trace;
    } else {
      var o := Step(a[0], insn, ok, u);
      assert (a + b)[0] == a[0] && (a + b)[1..] == a[1..] + b;
      if !o.returned {
        RunConcat(a[1..], b, insn, ok, o.u);
        var mid := Run(a[1..], insn, ok, o.u);
        assert o.trace + (mid.trace + Run(b, insn, ok, mid.u).trace) == (o.trace + mid.trace) + Run(b, insn, ok, mid.u).trace;
      }
    }
  }

  lemma {:induction false} RunOne(s: Stmt, insn: nat, ok: Attempt -> bool, u: Union)
    ensures Run([s], insn, ok, u) == Step(s, insn, ok, u)
  {
    var o := Step(s, insn, ok, u);
    assert [s][1..] == [];
    assert o.trace + [] == o.trace;
    assert Run([], insn, ok, o.u) == Outcome(o.u, [], false);
  }

  lemma {:induction false} UpToFirstConcat(ok: Attempt -> bool, a: seq<Attempt>, b: seq<Attempt>)
    ensures Accepted(ok, a + b) <==> Accepted(ok, a) || Accepted(ok, b)
    ensures UpToFirst(ok, a + b) == if Accepted(ok, a) then UpToFirst(ok, a) else a + UpToFirst(ok, b)
    ensures !Accepted(ok, a) ==> UpToFirst(ok, a) == a
  {
    if |a| == 0 {
      assert a + b == b;
      assert a + UpToFirst(ok, b) == UpToFirst(ok, b);
    } else {
      var tail := a[1..];
      assert (a + b)[0] == a[0] && (a + b)[1..] == tail + b;
      UpToFirstConcat(ok, tail, b);
      assert [a[0]] + tail == a;
      assert [a[0]] + (tail + UpToFirst(ok, b)) == a + UpToFirst(ok, b);
    }
  }

  /** Code that meets its reference, then more code that meets its own. */
  lemma MeetsConcat(a: seq<Stmt>, b: seq<Stmt>, refA: seq<Attempt>, refB: seq<Attempt>, insn: nat, ok: Attempt -> bool, u: Union)
    requires Meets(Run(a, insn, ok, u), ok, refA)
    requires !Run(a, insn, ok, u).returned ==> Meets(Run(b, insn, ok, Run(a, insn, ok, u).u), ok, refB)
    ensures Meets(Run(a + b, insn, ok, u), ok, refA + refB)
  {
    RunConcat(a, b, insn, ok, u);
    UpToFirstConcat(ok, refA, refB);
  }

  // ---- a single pattern and its arguments ----

  /** The union holds the fields of `f`, extracted and not disturbed since. */
  ghost predicate Holds(u: Union, f: Format) {
    && f.dangling == {}
    && u.arg == f.arg
    && forall n :: n in f.fields ==> n in u.vals && u.vals[n] == FmtVal(f, n, map[])
  }

  lemma ExtractHolds(f: Format, u: Union)
    requires f.dangling == {}
    ensures Holds(RunExtract(f, u), f)
  {
    assert Restrict(Members(u, f.arg), f.dangling) == map[];
  }

  lemma FormatThenPattern(p: Pattern, u: Union)
    requires p.base.dangling == {} && p.fields !! p.base.fields && p.dangling <= p.base.fields
    requires Holds(u, p.base)
    ensures var u2 := RunPatFields(p, u); Holds(u2, p.base) && ArgsOf(p, u2) == ExpectedArgs(p)
  {
    var plain := map n | n in p.base.fields :: FmtVal(p.base, n, map[]);
    assert Restrict(u.vals, p.dangling) == Restrict(plain, p.dangling);
    var own := map n | n in p.fields :: PatVal(p, n, Restrict(plain, p.dangling));
    var u2 := RunPatFields(p, u);
    assert u2.vals == u.vals + own;
    assert ArgsOf(p, u2) == plain + own;
  }

  lemma PatternThenFormat(p: Pattern, u: Union)
    requires p.base.dangling != {} && p.fields !! p.base.fields && p.base.dangling <= p.fields && p.dangling == {}
    ensures ArgsOf(p, RunExtract(p.base, RunPatFields(p, u))) == ExpectedArgs(p)
  {
    var u1 := RunPatFields(p, u);
    assert Restrict(Members(u, p.base.arg), p.dangling) == map[];
    var plain := map n | n in p.fields :: PatVal(p, n, map[]);
    assert u1.vals == Members(u, p.base.arg) + plain;
    assert Restrict(u1.vals, p.base.dangling) == Restrict(plain, p.base.dangling);
    var own := map n | n in p.base.fields :: FmtVal(p.base, n, Restrict(plain, p.base.dangling));
    var u2 := RunExtract(p.base, u1);
    assert u2.vals == u1.vals + own;
    assert ArgsOf(p, u2) == own + plain;
  }

  /** A pattern is tried once, with its own format's fields and its own fields. */
  lemma PatternCorrect(insnmask: nat, p: Pattern, extracted: bool, insn: nat, ok: Attempt -> bool, u: Union)
    requires WellFormedPattern(insnmask, p)
    requires extracted ==> Holds(u, p.base)
    ensures var o := Run(EmitPattern(p, extracted), insn, ok, u);
      && Meets(o, ok, [Attempt(p, ExpectedArgs(p))])
      && (extracted ==> Holds(o.u, p.base))
  {
    var extract := if extracted then [] else [Extract(p.base)];
    var a := Attempt(p, ExpectedArgs(p));
    assert [a][1..] == [];
    assert UpToFirst(ok, [a]) == [a];
    if p.base.dangling != {} {
      var u1 := RunPatFields(p, u);
      PatternThenFormat(p, u);
      ThreeSteps(PatFields(p), Extract(p.base), p, insn, ok, u);
      assert EmitPattern(p, extracted) == [PatFields(p), Extract(p.base), Try(p)];
    } else if extracted {
      FormatThenPattern(p, u);
      TwoSteps(PatFields(p), p, insn, ok, u);
      assert EmitPattern(p, extracted) == [PatFields(p), Try(p)];
    } else {
      ExtractHolds(p.base, u);
      FormatThenPattern(p, RunExtract(p.base, u));
      ThreeSteps(Extract(p.base), PatFields(p), p, insn, ok, u);
      assert EmitPattern(p, extracted) == [Extract(p.base), PatFields(p), Try(p)];
    }
  }

  lemma TwoSteps(s: Stmt, p: Pattern, insn: nat, ok: Attempt -> bool, u: Union)
    requires s.Extract? || s.PatFields?
    ensures var u1 := Step(s, insn, ok, u).u;
      var a := Attempt(p, ArgsOf(p, u1));
      Run([s, Try(p)], insn, ok, u) == Outcome(u1, [a], ok(a))
  {
    var u1 := Step(s, insn, ok, u).u;
    RunOne(Try(p), insn, ok, u1);
    assert [s, Try(p)][1..] == [Try(p)];
  }

  lemma ThreeSteps(s: Stmt, t: Stmt, p: Pattern, insn: nat, ok: Attempt -> bool, u: Union)
    requires (s.Extract? || s.PatFields?) && (t.Extract? || t.PatFields?)
    ensures var u2 := Step(t, insn, ok, Step(s, insn, ok, u).u).u;
      var a := Attempt(p, ArgsOf(p, u2));
      Run([s, t, Try(p)], insn, ok, u) == Outcome(u2, [a], ok(a))
  {
    TwoSteps(t, p, insn, ok, Step(s, insn, ok, u).u);
    assert [s, t, Try(p)][1..] == [t, Try(p)];
  }

  // ---- the reference list ----

  lemma {:induction false} MissIsEmpty(insnmask: nat, n: Node, insn: nat)
    requires Annotated(insnmask, n) && !n.Matches(insn)
    ensures Reference(n, insn) == []
    decreases n, 0
  {
    if !n.Leaf? {
      forall k | 0 <= k < |n.pats| ensures !n.pats[k].Matches(insn) {
        MemberMatchesGroup(insnmask, n, k, insn);
      }
      AllMiss(insnmask, n, Iota(|n.pats|), insn);
    }
  }

  lemma {:induction false} AllMiss(insnmask: nat, n: Node, ix: seq<nat>, insn: nat)
    requires !n.Leaf? && InRange(n.pats, ix)
    requires forall i :: 0 <= i < |n.pats| ==> Annotated(insnmask, n.pats[i])
    requires forall i :: i in ix ==> !n.pats[i].Matches(insn)
    ensures Listed(n, ix, insn) == []
    decreases n, 0, |ix|
  {
    if |ix| > 0 {
      AllMiss(insnmask, n, ix[..|ix| - 1], insn);
      MissIsEmpty(insnmask, n.pats[ix[|ix| - 1]], insn);
    }
  }

  /** Members outside the selected bin contribute nothing. */
  lemma {:induction false} ListedSelect(insnmask: nat, n: Node, ix: seq<nat>, inner: nat, insn: nat)
    requires !n.Leaf? && InRange(n.pats, ix)
    requires forall i :: 0 <= i < |n.pats| ==> Annotated(insnmask, n.pats[i])
    requires forall i :: i in ix ==> Covers(n.pats[i].FixedMask(), inner)
    ensures var sel := Select(n.pats, ix, inner, And(insn, inner));
      InRange(n.pats, sel) && Listed(n, sel, insn) == Listed(n, ix, insn)
  {
    if |ix| > 0 {
      var front, last := ix[..|ix| - 1], ix[|ix| - 1];
      ListedSelect(insnmask, n, front, inner, insn);
      var sel := Select(n.pats, front, inner, And(insn, inner));
      assert last in ix;
      var whole := Select(n.pats, ix, inner, And(insn, inner));
      if n.pats[last].Matches(insn) {
        NarrowMatch(insn, n.pats[last].FixedBits(), n.pats[last].FixedMask(), inner);
      } else {
        MissIsEmpty(insnmask, n.pats[last], insn);
        assert Listed(n, front, insn) + [] == Listed(n, front, insn);
      }
      if And(n.pats[last].FixedBits(), inner) == And(insn, inner) {
        assert whole == sel + [last] && whole[..|sel|] == sel;
      } else {
        assert whole == sel + [] == sel;
      }
    }
  }

  // ---- switch statements ----

  lemma {:induction false} InsertMembers(c: Case, cases: seq<Case>, x: Case)
    ensures x in InsertCase(c, cases) <==> x == c || x in cases
  {
    if |cases| == 0 || c.bits <= cases[0].bits {
    } else {
      InsertMembers(c, cases[1..], x);
      assert cases == [cases[0]] + cases[1..];
    }
  }

  /** Sorting the cases keeps them all and adds none. */
  lemma {:induction false} SortMembers(cases: seq<Case>, x: Case)
    ensures x in SortCases(cases) <==> x in cases
  {
    if |cases| > 0 {
      SortMembers(cases[1..], x);
      InsertMembers(cases[0], SortCases(cases[1..]), x);
      assert cases == [cases[0]] + cases[1..];
    }
  }

  lemma FindSorted(cases: seq<Case>, c: Case)
    requires c in cases
    requires forall d :: d in cases && d.caseLabel == c.caseLabel ==> d == c
    ensures var sorted := SortCases(cases); var k := FindCase(sorted, c.caseLabel);
      k < |sorted| && sorted[k] == c
  {
    var sorted := SortCases(cases);
    SortMembers(cases, c);
    var j :| 0 <= j < |sorted| && sorted[j] == c;
    var k := FindCase(sorted, c.caseLabel);
    SortMembers(cases, sorted[k]);
  }

  lemma FindMissing(cases: seq<Case>, caseLabel: nat)
    requires forall d :: d in cases ==> d.caseLabel != caseLabel
    ensures FindCase(SortCases(cases), caseLabel) == |SortCases(cases)|
  {
    var sorted := SortCases(cases);
    var k := FindCase(sorted, caseLabel);
    if k < |sorted| {
      SortMembers(cases, sorted[k]);
    }
  }

  /** Below the switch's shift the mask has no bit. */
  lemma LowBitsClear(mask: nat, x: nat, i: nat)
    requires Covers(mask, x) && i < SwitchShift(mask)
    ensures !Bit(x, i)
  {
    if Bit(x, i) {
      CoversBit(mask, x, i);
    }
  }

  /** Shifting the mask away loses nothing of the masked bits, so labels stay distinct. */
  lemma LabelInjective(mask: nat, a: nat, b: nat)
    requires Covers(mask, a) && Covers(mask, b)
    requires Shr(a, SwitchShift(mask)) == Shr(b, SwitchShift(mask))
    ensures a == b
  {
    var s := SwitchShift(mask);
    forall i: nat ensures Bit(a, i) == Bit(b, i) {
      if i < s {
        LowBitsClear(mask, a, i);
        LowBitsClear(mask, b, i);
      } else {
        BitShr(a, s, i - s);
        BitShr(b, s, i - s);
      }
    }
    BitExtensional(a, b);
  }

  lemma ShiftedKey(insn: nat, mask: nat, s: nat)
    ensures And(Shr(insn, s), Shr(mask, s)) == Shr(And(insn, mask), s)
  {
    forall i: nat ensures Bit(And(Shr(insn, s), Shr(mask, s)), i) == Bit(Shr(And(insn, mask), s), i) {
      BitAnd(Shr(insn, s), Shr(mask, s), i);
      BitShr(insn, s, i);
      BitShr(mask, s, i);
      BitShr(And(insn, mask), s, i);
      BitAnd(insn, mask, s + i);
    }
    BitExtensional(And(Shr(insn, s), Shr(mask, s)), Shr(And(insn, mask), s));
  }

  lemma AndCovered(x: nat, mask: nat)
    ensures Covers(mask, And(x, mask))
  {
    forall i: nat | Bit(And(x, mask), i) ensures Bit(mask, i) {
      BitAnd(x, mask, i);
    }
    CoversFromBits(mask, And(x, mask));
  }

  /** The edges of a built tree: distinct bits, all within the mask switched on. */
  ghost predicate GoodEdges(t: Tree) {
    && (forall j, k :: 0 <= j < k < |t.subs| ==> t.subs[j].bits != t.subs[k].bits)
    && (forall k :: 0 <= k < |t.subs| ==> Covers(t.thismask, t.subs[k].bits))
  }

  lemma BuiltEdges(insnmask: nat, pats: seq<Node>, ix: seq<nat>, outermask: nat)
    requires InRange(pats, ix) && Build(insnmask, pats, ix, outermask).Some?
    ensures var t := Build(insnmask, pats, ix, outermask).value;
      var inner := Meet(AndNot(insnmask, outermask), pats, ix);
      && t.thismask == inner && GoodEdges(t)
      && (inner != 0 ==> forall k :: 0 <= k < |t.subs| ==> Select(pats, ix, inner, t.subs[k].bits) != [])
  {
    var t := Build(insnmask, pats, ix, outermask).value;
    var inner := Meet(AndNot(insnmask, outermask), pats, ix);
    if inner != 0 {
      BinsPartition(pats, ix, inner);
      MaskGrows(insnmask, pats, ix, outermask);
      var bins, full := Bins(pats, ix, inner), Or(outermask, inner);
      forall k | 0 <= k < |t.subs|
        ensures t.subs[k].bits == bins[k].key && Covers(inner, t.subs[k].bits)
        ensures Select(pats, ix, inner, t.subs[k].bits) != []
      {
        BuildSubsAt(insnmask, pats, bins, full, k);
        var i := bins[k].members[0];
        AndCovered(pats[i].FixedBits(), inner);
      }
    }
  }

  /** Case labels are distinct, also after the mask has been shifted down. */
  lemma LabelsDistinct(insnmask: nat, n: Node, t: Tree, extracted: bool, innermask: nat, j: nat, k: nat)
    requires n.Exc? && Builds(insnmask, n) && TreeInRange(n.pats, t) && GoodEdges(t)
    requires j < k < |t.subs|
    ensures var cases := EmitCases(insnmask, n, t, extracted, innermask, |t.subs|);
      cases[j].caseLabel != cases[k].caseLabel
  {
    var cases := EmitCases(insnmask, n, t, extracted, innermask, |t.subs|);
    if cases[j].caseLabel == cases[k].caseLabel {
      LabelInjective(t.thismask, t.subs[j].bits, t.subs[k].bits);
    }
  }

  function EmittedSwitch(insnmask: nat, n: Node, t: Tree, extracted: bool, innermask: nat): Stmt
    requires n.Exc? && Builds(insnmask, n) && TreeInRange(n.pats, t)
  {
    var shift := SwitchShift(t.thismask);
    Switch(shift, Shr(t.thismask, shift), SortCases(EmitCases(insnmask, n, t, extracted, innermask, |t.subs|)))
  }

  lemma SwitchKey(t: Tree, insn: nat)
    ensures var shift := SwitchShift(t.thismask);
      And(Shr(insn, shift), Shr(t.thismask, shift)) == Shr(And(insn, t.thismask), shift)
    ensures Covers(t.thismask, And(insn, t.thismask))
  {
    ShiftedKey(insn, t.thismask, SwitchShift(t.thismask));
    AndCovered(insn, t.thismask);
  }

  /** The switch runs the code of the edge the word selects ... */
  lemma SwitchHit(insnmask: nat, n: Node, t: Tree, extracted: bool, innermask: nat, k: nat,
                  insn: nat, ok: Attempt -> bool, u: Union)
    requires n.Exc? && Builds(insnmask, n) && TreeInRange(n.pats, t) && GoodEdges(t)
    requires k < |t.subs| && t.subs[k].bits == And(insn, t.thismask)
    ensures Step(EmittedSwitch(insnmask, n, t, extracted, innermask), insn, ok, u)
      == Run(EmitSub(insnmask, n, t, k, extracted, innermask), insn, ok, u)
  {
    SwitchKey(t, insn);
    CaseFound(insnmask, n, t, extracted, innermask, k);
  }

  lemma CaseFound(insnmask: nat, n: Node, t: Tree, extracted: bool, innermask: nat, k: nat)
    requires n.Exc? && Builds(insnmask, n) && TreeInRange(n.pats, t) && GoodEdges(t)
    requires k < |t.subs|
    ensures var sorted := SortCases(EmitCases(insnmask, n, t, extracted, innermask, |t.subs|));
      var j := FindCase(sorted, Shr(t.subs[k].bits, SwitchShift(t.thismask)));
      j < |sorted| && sorted[j].body == EmitSub(insnmask, n, t, k, extracted, innermask)
  {
    var cases := EmitCases(insnmask, n, t, extracted, innermask, |t.subs|);
    forall d | d in cases && d.caseLabel == cases[k].caseLabel ensures d == cases[k] {
      var j :| 0 <= j < |cases| && cases[j] == d;
      if j < k { LabelsDistinct(insnmask, n, t, extracted, innermask, j, k); }
      if k < j { LabelsDistinct(insnmask, n, t, extracted, innermask, k, j); }
    }
    FindSorted(cases, cases[k]);
  }

  /** ... and does nothing when the word selects none. */
  lemma SwitchMiss(insnmask: nat, n: Node, t: Tree, extracted: bool, innermask: nat,
                   insn: nat, ok: Attempt -> bool, u: Union)
    requires n.Exc? && Builds(insnmask, n) && TreeInRange(n.pats, t) && GoodEdges(t)
    requires forall k :: 0 <= k < |t.subs| ==> t.subs[k].bits != And(insn, t.thismask)
    ensures Step(EmittedSwitch(insnmask, n, t, extracted, innermask), insn, ok, u) == Outcome(u, [], false)
  {
    var cases := EmitCases(insnmask, n, t, extracted, innermask, |t.subs|);
    var key := And(insn, t.thismask);
    SwitchKey(t, insn);
    forall d | d in cases ensures d.caseLabel != Shr(key, SwitchShift(t.thismask)) {
      var j :| 0 <= j < |cases| && cases[j] == d;
      if d.caseLabel == Shr(key, SwitchShift(t.thismask)) {
        LabelInjective(t.thismask, t.subs[j].bits, key);
      }
    }
    FindMissing(cases, Shr(key, SwitchShift(t.thismask)));
  }

  // ---- the hoisted extraction ----

  ghost predicate AllOfFormat(n: Node, ix: seq<nat>, f: Format)
    requires !n.Leaf? && InRange(n.pats, ix)
  {
    forall k :: 0 <= k < |ix| ==> n.pats[ix[k]].Leaf? && n.pats[ix[k]].p.base == f
  }

  /** A format recorded in a tree is the format of every pattern below it. */
  lemma {:induction false} TreeBaseOfAll(insnmask: nat, n: Node, ix: seq<nat>, outermask: nat, f: Format)
    requires n.Exc? && InRange(n.pats, ix)
    requires Build(insnmask, n.pats, ix, outermask).Some?
    requires TreeInRange(n.pats, Build(insnmask, n.pats, ix, outermask).value)
    requires TreeBase(n.pats, Build(insnmask, n.pats, ix, outermask).value) == Some(f)
    ensures AllOfFormat(n, ix, f)
    decreases AndNot(insnmask, outermask)
  {
    var t := Build(insnmask, n.pats, ix, outermask).value;
    var inner := Meet(AndNot(insnmask, outermask), n.pats, ix);
    if inner == 0 {
      assert SubBase(n.pats, t.subs[0].sub) == Some(f);
    } else {
      MaskGrows(insnmask, n.pats, ix, outermask);
      forall j | 0 <= j < |ix| ensures n.pats[ix[j]].Leaf? && n.pats[ix[j]].p.base == f {
        var i := ix[j];
        var key := And(n.pats[i].FixedBits(), inner);
        var sel := Select(n.pats, ix, inner, key);
        SelectSelf(n.pats, ix, inner, i);
        var k := SelectedEdge(insnmask, n.pats, ix, outermask, key);
        assert SubInRange(n.pats, t.subs[k].sub);
        assert SubBase(n.pats, t.subs[k].sub) == Some(f);
        if t.subs[k].sub.SubTree? {
          TreeBaseOfAll(insnmask, n, sel, Or(outermask, inner), f);
        }
      }
    }
  }

  lemma {:induction false} SelectSelf(pats: seq<Node>, ix: seq<nat>, inner: nat, i: nat)
    requires InRange(pats, ix) && i in ix
    ensures i in Select(pats, ix, inner, And(pats[i].FixedBits(), inner))
  {
    if ix[|ix| - 1] != i {
      SelectSelf(pats, ix[..|ix| - 1], inner, i);
    }
  }

  // ---- the theorem ----

  ghost predicate GoodMembers(insnmask: nat, n: Node) {
    && !n.Leaf?
    && Builds(insnmask, n)
    && (forall i :: 0 <= i < |n.pats| ==> WellFormed(insnmask, n.pats[i]) && Annotated(insnmask, n.pats[i]))
  }

  lemma MaskWithin(insnmask: nat, n: Node)
    requires WellFormed(insnmask, n) && Annotated(insnmask, n)
    ensures Covers(insnmask, n.FixedMask())
    ensures n.FixedMask() != 0 ==> Covers(n.FixedMask(), n.FixedBits())
  {
    if !n.Leaf? {
      AgreementMember(insnmask, n.pats, n.mask, 0);
      AndCovered(n.pats[0].FixedBits(), n.mask);
    }
  }

  /** What the code of a pattern or group does on a word that matches it. */
  lemma {:induction false} EmitCorrect(insnmask: nat, n: Node, extracted: bool, insn: nat, ok: Attempt -> bool, u: Union)
    requires WellFormed(insnmask, n) && Annotated(insnmask, n) && Builds(insnmask, n)
    requires n.Matches(insn)
    requires extracted ==> n.Leaf? && Holds(u, n.p.base)
    ensures var o := Run(Emit(insnmask, n, extracted, n.FixedMask()), insn, ok, u);
      && Meets(o, ok, Reference(n, insn))
      && (extracted ==> Holds(o.u, n.p.base))
    decreases n
  {
    match n
    case Leaf(p) =>
      PatternCorrect(insnmask, p, extracted, insn, ok, u);
    case Inc(_, _, ps) =>
      EmitIncCorrect(insnmask, n, |ps|, insn, ok, u);
      assert Iota(|ps|)[..|ps|] == Iota(|ps|);
    case Exc(_, _, ps) =>
      var ix := Iota(|ps|);
      forall k | 0 <= k < |ix|
        ensures Covers(ps[ix[k]].FixedMask(), n.mask)
        ensures And(ps[ix[k]].FixedBits(), n.mask) == And(insn, n.mask)
      {
        MemberMatchesGroup(insnmask, n, k, insn);
      }
      BuiltInRange(insnmask, ps, ix, n.mask);
      EmitTreeCorrect(insnmask, n, ix, n.mask, false, insn, ok, u);
  }

  lemma {:induction false} EmitIncCorrect(insnmask: nat, n: Node, k: nat, insn: nat, ok: Attempt -> bool, u: Union)
    requires WellFormed(insnmask, n) && Annotated(insnmask, n) && Builds(insnmask, n)
    requires n.Inc? && n.Matches(insn) && k <= |n.pats|
    ensures Meets(Run(EmitInc(insnmask, n, false, n.mask, k), insn, ok, u), ok, Listed(n, Iota(|n.pats|)[..k], insn))
    decreases n, k
  {
    if k > 0 {
      var front := EmitInc(insnmask, n, false, n.mask, k - 1);
      var last := EmitMember(insnmask, n, false, n.mask, k - 1);
      EmitIncCorrect(insnmask, n, k - 1, insn, ok, u);
      EmitMemberCorrect(insnmask, n, k - 1, insn, ok, Run(front, insn, ok, u).u);
      MeetsConcat(front, last, Listed(n, Iota(|n.pats|)[..k - 1], insn), Reference(n.pats[k - 1], insn), insn, ok, u);
      ListedMore(n, k, insn);
      IncMore(insnmask, n, k);
    }
  }

  lemma ListedMore(n: Node, k: nat, insn: nat)
    requires !n.Leaf? && 0 < k <= |n.pats|
    ensures var ix := Iota(|n.pats|);
      Listed(n, ix[..k], insn) == Listed(n, ix[..k - 1], insn) + Reference(n.pats[k - 1], insn)
  {
    var ix := Iota(|n.pats|);
    assert ix[..k][..k - 1] == ix[..k - 1];
  }

  lemma IncMore(insnmask: nat, n: Node, k: nat)
    requires n.Inc? && Builds(insnmask, n) && 0 < k <= |n.pats|
    ensures EmitInc(insnmask, n, false, n.mask, k)
      == EmitInc(insnmask, n, false, n.mask, k - 1) + EmitMember(insnmask, n, false, n.mask, k - 1)
  {}

  /** The test emitted for a member, of the bits its group leaves open, decides whether
      the word matches the member. */
  lemma EmitMemberCorrect(insnmask: nat, n: Node, k: nat, insn: nat, ok: Attempt -> bool, u: Union)
    requires WellFormed(insnmask, n) && Annotated(insnmask, n) && Builds(insnmask, n)
    requires n.Inc? && n.Matches(insn) && k < |n.pats|
    ensures Meets(Run(EmitMember(insnmask, n, false, n.mask, k), insn, ok, u), ok, Reference(n.pats[k], insn))
    decreases n, k, 0
  {
    var c := n.pats[k];
    var body := Emit(insnmask, c, false, c.FixedMask());
    MemberMatchesGroup(insnmask, n, k, insn);
    if n.mask == c.FixedMask() {
      assert c.Matches(insn);
      EmitCorrect(insnmask, c, false, insn, ok, u);
    } else {
      MaskWithin(insnmask, c);
      SmallerMaskZero(c.FixedMask(), n.mask);
      OpenBitsTest(insn, c.FixedBits(), c.FixedMask(), n.mask);
      RunOne(IfMatch(AndNot(c.FixedMask(), n.mask), AndNot(c.FixedBits(), n.mask), body), insn, ok, u);
      if c.Matches(insn) {
        EmitCorrect(insnmask, c, false, insn, ok, u);
      } else {
        MissIsEmpty(insnmask, c, insn);
      }
    }
  }

  lemma SmallerMaskZero(big: nat, small: nat)
    requires Covers(big, small) && big != small
    ensures big != 0
  {
    CoveredIsSmaller(big, small);
  }

  lemma OpenBitsTest(insn: nat, bits: nat, mask: nat, outer: nat)
    requires Covers(mask, outer) && Covers(mask, bits)
    requires And(insn, outer) == And(bits, outer)
    ensures And(insn, AndNot(mask, outer)) == AndNot(bits, outer) <==> And(insn, mask) == And(bits, mask)
  {
    var open_, rest := AndNot(mask, outer), AndNot(bits, outer);
    if And(insn, open_) == rest {
      forall i: nat ensures Bit(And(insn, mask), i) == Bit(And(bits, mask), i) {
        OpenBit(insn, bits, mask, outer, i);
      }
      BitExtensional(And(insn, mask), And(bits, mask));
    }
    if And(insn, mask) == And(bits, mask) {
      forall i: nat ensures Bit(And(insn, open_), i) == Bit(rest, i) {
        OpenBit(insn, bits, mask, outer, i);
      }
      BitExtensional(And(insn, open_), rest);
    }
  }

  lemma OpenBit(insn: nat, bits: nat, mask: nat, outer: nat, i: nat)
    requires Covers(mask, outer) && Covers(mask, bits)
    requires And(insn, outer) == And(bits, outer)
    ensures Bit(And(insn, AndNot(mask, outer)), i) == (Bit(insn, i) && Bit(mask, i) && !Bit(outer, i))
    ensures Bit(AndNot(bits, outer), i) == (Bit(bits, i) && !Bit(outer, i))
    ensures Bit(And(insn, mask), i) == (Bit(insn, i) && Bit(mask, i))
    ensures Bit(And(bits, mask), i) == Bit(bits, i)
    ensures Bit(bits, i) ==> Bit(mask, i)
    ensures Bit(outer, i) ==> Bit(insn, i) == Bit(bits, i)
  {
    BitAnd(insn, AndNot(mask, outer), i);
    BitAndNot(mask, outer, i);
    BitAndNot(bits, outer, i);
    BitAnd(insn, mask, i);
    BitAnd(bits, mask, i);
    BitAnd(insn, outer, i);
    BitAnd(bits, outer, i);
    if Bit(bits, i) { CoversBit(mask, bits, i); }
  }

  /** What the code of a (sub-)tree does when the word agrees with the tests made on the
      path to it. */
  lemma {:induction false} EmitTreeCorrect(insnmask: nat, n: Node, ix: seq<nat>, outermask: nat, extracted: bool,
                                           insn: nat, ok: Attempt -> bool, u: Union)
    requires n.Exc? && GoodMembers(insnmask, n)
    requires InRange(n.pats, ix) && PathFixed(n.pats, ix, outermask)
    requires Build(insnmask, n.pats, ix, outermask).Some?
    requires TreeInRange(n.pats, Build(insnmask, n.pats, ix, outermask).value)
    requires forall k :: 0 <= k < |ix| ==> And(n.pats[ix[k]].FixedBits(), outermask) == And(insn, outermask)
    requires extracted ==> exists f :: AllOfFormat(n, ix, f) && Holds(u, f)
    ensures var t := Build(insnmask, n.pats, ix, outermask).value;
      var o := Run(EmitTree(insnmask, n, t, extracted, outermask), insn, ok, u);
      && Meets(o, ok, Listed(n, ix, insn))
      && (extracted ==> forall f :: AllOfFormat(n, ix, f) && Holds(u, f) ==> Holds(o.u, f))
    decreases n, AndNot(insnmask, outermask), 2
  {
    var t := Build(insnmask, n.pats, ix, outermask).value;
    var base := TreeBase(n.pats, t);
    var hoist := !extracted && base.Some? && base.value.dangling == {};
    var sw := EmittedSwitch(insnmask, n, t, extracted || hoist, Or(outermask, t.thismask));
    if hoist {
      TreeBaseOfAll(insnmask, n, ix, outermask, base.value);
      ExtractHolds(base.value, u);
      var u1 := RunExtract(base.value, u);
      SwitchCorrect(insnmask, n, ix, outermask, true, insn, ok, u1);
      RunOne(sw, insn, ok, u1);
      assert [Extract(base.value), sw][1..] == [sw];
      assert EmitTree(insnmask, n, t, extracted, outermask) == [Extract(base.value), sw];
      assert [] + Step(sw, insn, ok, u1).trace == Step(sw, insn, ok, u1).trace;
    } else {
      SwitchCorrect(insnmask, n, ix, outermask, extracted, insn, ok, u);
      RunOne(sw, insn, ok, u);
      assert EmitTree(insnmask, n, t, extracted, outermask) == [sw];
    }
  }

  lemma {:induction false} SwitchCorrect(insnmask: nat, n: Node, ix: seq<nat>, outermask: nat, extracted: bool,
                                         insn: nat, ok: Attempt -> bool, u: Union)
    requires n.Exc? && GoodMembers(insnmask, n)
    requires InRange(n.pats, ix) && PathFixed(n.pats, ix, outermask)
    requires Build(insnmask, n.pats, ix, outermask).Some?
    requires TreeInRange(n.pats, Build(insnmask, n.pats, ix, outermask).value)
    requires forall k :: 0 <= k < |ix| ==> And(n.pats[ix[k]].FixedBits(), outermask) == And(insn, outermask)
    requires extracted ==> exists f :: AllOfFormat(n, ix, f) && Holds(u, f)
    ensures var t := Build(insnmask, n.pats, ix, outermask).value;
      var o := Step(EmittedSwitch(insnmask, n, t, extracted, Or(outermask, t.thismask)), insn, ok, u);
      && Meets(o, ok, Listed(n, ix, insn))
      && (extracted ==> forall f :: AllOfFormat(n, ix, f) && Holds(u, f) ==> Holds(o.u, f))
    decreases n, AndNot(insnmask, outermask), 1
  {
    var t := Build(insnmask, n.pats, ix, outermask).value;
    var inner := Meet(AndNot(insnmask, outermask), n.pats, ix);
    var full := Or(outermask, inner);
    var key := And(insn, inner);
    BuiltEdges(insnmask, n.pats, ix, outermask);
    if inner == 0 {
      MaskWithin(insnmask, n.pats[ix[0]]);
      EdgeCase(insnmask, n.pats, ix, outermask);
      OrZero(outermask);
      assert key == 0 by { AndCovered(insn, 0); CoveredIsSmaller(0, key); }
      assert t.subs[0] == Edge(0, SubPat(ix[0]));
      SwitchHit(insnmask, n, t, extracted, full, 0, insn, ok, u);
      LeafOfTree(insnmask, n, ix, extracted, insn, ok, u);
    } else {
      SelectedMembers(insnmask, n, ix, outermask, insn);
      var sel := Select(n.pats, ix, inner, key);
      if sel == [] {
        SwitchMiss(insnmask, n, t, extracted, full, insn, ok, u);
      } else {
        var k := SelectedEdge(insnmask, n.pats, ix, outermask, key);
        assert SubInRange(n.pats, t.subs[k].sub);
        MaskGrows(insnmask, n.pats, ix, outermask);
        SwitchHit(insnmask, n, t, extracted, full, k, insn, ok, u);
        EdgeCorrect(insnmask, n, sel, full, extracted, insn, ok, u);
      }
    }
  }

  /** The members of the selected bin carry over everything known of the listed ones. */
  lemma SelectedMembers(insnmask: nat, n: Node, ix: seq<nat>, outermask: nat, insn: nat)
    requires n.Exc? && GoodMembers(insnmask, n)
    requires InRange(n.pats, ix) && PathFixed(n.pats, ix, outermask)
    requires forall k :: 0 <= k < |ix| ==> And(n.pats[ix[k]].FixedBits(), outermask) == And(insn, outermask)
    ensures var inner := Meet(AndNot(insnmask, outermask), n.pats, ix);
      var full := Or(outermask, inner);
      var sel := Select(n.pats, ix, inner, And(insn, inner));
      && InRange(n.pats, sel) && PathFixed(n.pats, sel, full)
      && Listed(n, sel, insn) == Listed(n, ix, insn)
      && (forall j :: 0 <= j < |sel| ==> And(n.pats[sel[j]].FixedBits(), full) == And(insn, full))
      && (forall f :: AllOfFormat(n, ix, f) ==> AllOfFormat(n, sel, f))
  {
    var inner := Meet(AndNot(insnmask, outermask), n.pats, ix);
    var full := Or(outermask, inner);
    var sel := Select(n.pats, ix, inner, And(insn, inner));
    forall i | i in ix ensures Covers(n.pats[i].FixedMask(), inner) {
      MeetCovered(insnmask, n.pats, ix, outermask, i);
    }
    ListedSelect(insnmask, n, ix, inner, insn);
    SelectFixed(insnmask, n.pats, ix, outermask, inner, And(insn, inner));
    forall j | 0 <= j < |sel| ensures And(n.pats[sel[j]].FixedBits(), full) == And(insn, full) {
      assert sel[j] in ix;
      AgreeOnBoth(n.pats[sel[j]].FixedBits(), insn, outermask, inner);
    }
    forall f | AllOfFormat(n, ix, f) ensures AllOfFormat(n, sel, f) {
      forall j | 0 <= j < |sel| ensures n.pats[sel[j]].Leaf? && n.pats[sel[j]].p.base == f {
        assert sel[j] in ix;
      }
    }
  }

  /** The code of one edge, sub-tree or leaf. */
  lemma {:induction false} EdgeCorrect(insnmask: nat, n: Node, sel: seq<nat>, full: nat, extracted: bool,
                                       insn: nat, ok: Attempt -> bool, u: Union)
    requires n.Exc? && GoodMembers(insnmask, n)
    requires |sel| > 0 && InRange(n.pats, sel) && PathFixed(n.pats, sel, full)
    requires BuildBin(insnmask, n.pats, sel, full).Some?
    requires SubInRange(n.pats, BuildBin(insnmask, n.pats, sel, full).value)
    requires forall k :: 0 <= k < |sel| ==> And(n.pats[sel[k]].FixedBits(), full) == And(insn, full)
    requires extracted ==> exists f :: AllOfFormat(n, sel, f) && Holds(u, f)
    ensures var code := match BuildBin(insnmask, n.pats, sel, full).value
        case SubPat(i) => Emit(insnmask, n.pats[i], extracted, full)
        case SubTree(s) => EmitTree(insnmask, n, s, extracted, full);
      var o := Run(code, insn, ok, u);
      && Meets(o, ok, Listed(n, sel, insn))
      && (extracted ==> forall f :: AllOfFormat(n, sel, f) && Holds(u, f) ==> Holds(o.u, f))
    decreases n, AndNot(insnmask, full), 3
  {
    if |sel| > 1 || AndNot(n.pats[sel[0]].FixedMask(), full) != 0 {
      EmitTreeCorrect(insnmask, n, sel, full, extracted, insn, ok, u);
    } else {
      MaskWithin(insnmask, n.pats[sel[0]]);
      CoversBothWays(full, n.pats[sel[0]].FixedMask());
      LeafOfTree(insnmask, n, sel, extracted, insn, ok, u);
    }
  }

  lemma AgreeOnBoth(a: nat, b: nat, m1: nat, m2: nat)
    requires And(a, m1) == And(b, m1) && And(a, m2) == And(b, m2)
    ensures And(a, Or(m1, m2)) == And(b, Or(m1, m2))
  {
    forall i: nat ensures Bit(And(a, Or(m1, m2)), i) == Bit(And(b, Or(m1, m2)), i) {
      BitAnd(a, Or(m1, m2), i);
      BitAnd(b, Or(m1, m2), i);
      BitOr(m1, m2, i);
      BitAnd(a, m1, i);
      BitAnd(b, m1, i);
      BitAnd(a, m2, i);
      BitAnd(b, m2, i);
    }
    BitExtensional(And(a, Or(m1, m2)), And(b, Or(m1, m2)));
  }

  /** The single member left at a leaf, whose whole mask has been tested. */
  lemma LeafOfTree(insnmask: nat, n: Node, ix: seq<nat>, extracted: bool, insn: nat, ok: Attempt -> bool, u: Union)
    requires n.Exc? && GoodMembers(insnmask, n)
    requires |ix| == 1 && InRange(n.pats, ix)
    requires n.pats[ix[0]].Matches(insn)
    requires extracted ==> exists f :: AllOfFormat(n, ix, f) && Holds(u, f)
    ensures var c := n.pats[ix[0]];
      var o := Run(Emit(insnmask, c, extracted, c.FixedMask()), insn, ok, u);
      && Meets(o, ok, Listed(n, ix, insn))
      && (extracted ==> forall f :: AllOfFormat(n, ix, f) && Holds(u, f) ==> Holds(o.u, f))
    decreases n, 0, 0
  {
    var c := n.pats[ix[0]];
    EmitCorrect(insnmask, c, extracted, insn, ok, u);
    assert Listed(n, ix[..0], insn) == [];
    assert [] + Reference(c, insn) == Reference(c, insn);
  }

  /** The generated decoder.  The top group has the empty mask: decoding begins from
      naught (lines 1566-1570). */
  function Decoder(insnmask: nat, pats: seq<Node>): seq<Stmt>
    requires Builds(insnmask, Exc(0, 0, pats))
  {
    Emit(insnmask, Exc(0, 0, pats), false, 0)
  }

  /** Main theorem.  For every word, every acceptance behaviour of the trans_* functions
      and whatever is in the union, the decoder makes exactly the attempts of the flat
      list, in textual order, up to the first accepted one, and returns true exactly when
      one is accepted. */
  lemma DecoderMeaning(insnmask: nat, pats: seq<Node>, insn: nat, ok: Attempt -> bool, u: Union)
    requires forall i :: 0 <= i < |pats| ==> WellFormed(insnmask, pats[i]) && Annotated(insnmask, pats[i])
    requires Builds(insnmask, Exc(0, 0, pats))
    ensures var o := Run(Decoder(insnmask, pats), insn, ok, u);
      var flat := Reference(Exc(0, 0, pats), insn);
      o.trace == UpToFirst(ok, flat) && o.returned == Accepted(ok, flat)
  {
    var top, ix := Exc(0, 0, pats), Iota(|pats|);
    forall k | 0 <= k < |ix|
      ensures Covers(pats[ix[k]].FixedMask(), 0) && And(pats[ix[k]].FixedBits(), 0) == And(insn, 0)
    {
      AndCovered(insn, 0);
      AndCovered(pats[ix[k]].FixedBits(), 0);
      CoveredIsSmaller(0, And(insn, 0));
      CoveredIsSmaller(0, And(pats[ix[k]].FixedBits(), 0));
    }
    BuiltInRange(insnmask, pats, ix, 0);
    EmitTreeCorrect(insnmask, top, ix, 0, false, insn, ok, u);
  }

  // ---- from the parsed file to the decoder ----

  lemma {:induction false} ShapeReference(a: Node, b: Node, insn: nat)
    requires SameShape(a, b)
    ensures Reference(a, insn) == Reference(b, insn)
    decreases a
  {
    if !a.Leaf? {
      ShapeListed(a, b, Iota(|a.pats|), insn);
    }
  }

  lemma {:induction false} ShapeListed(a: Node, b: Node, ix: seq<nat>, insn: nat)
    requires !a.Leaf? && !b.Leaf? && |a.pats| == |b.pats| && InRange(a.pats, ix)
    requires forall i :: 0 <= i < |a.pats| ==> SameShape(a.pats[i], b.pats[i])
    ensures Listed(a, ix, insn) == Listed(b, ix, insn)
    decreases a, |ix|
  {
    if |ix| > 0 {
      ShapeListed(a, b, ix[..|ix| - 1], insn);
      ShapeReference(a.pats[ix[|ix| - 1]], b.pats[ix[|ix| - 1]], insn);
    }
  }

  /** build_tree over a whole node: members first, then the group's own tree. */
  method BuildAll(insnmask: nat, n: Node) returns (built: bool)
    ensures built == Builds(insnmask, n)
    decreases n
  {
    if n.Leaf? {
      return true;
    }
    for i := 0 to |n.pats|
      invariant forall k :: 0 <= k < i ==> Builds(insnmask, n.pats[k])
    {
      var b := BuildAll(insnmask, n.pats[i]);
      if !b {
        return false;
      }
    }
    if n.Exc? {
      var t := BuildTree(insnmask, n.pats, Iota(|n.pats|), n.mask);
      return t.Some?;
    }
    return true;
  }

  /** The generator's main path (lines 1566-1575): propagate the masks of the top-level
      patterns, build every tree, emit.  There is no code exactly if some exclusive group has
      members that no bit they all fix tells apart. */
  method Generate(insnmask: nat, pats: seq<Node>) returns (masked: seq<Node>, code: Option<seq<Stmt>>)
    requires forall i :: 0 <= i < |pats| ==> WellFormed(insnmask, pats[i])
    ensures |masked| == |pats|
    ensures forall i :: 0 <= i < |pats| ==> SameShape(pats[i], masked[i]) && Annotated(insnmask, masked[i])
    ensures code.None? <==> Overlaps(insnmask, Exc(0, 0, masked)) || (|pats| == 0 && insnmask == 0)
    ensures code.Some? ==> forall insn: nat, ok: Attempt -> bool, u: Union ::
      var o := Run(code.value, insn, ok, u);
      var flat := Reference(Exc(0, 0, pats), insn);
      o.trace == UpToFirst(ok, flat) && o.returned == Accepted(ok, flat)
  {
    masked := [];
    for i := 0 to |pats|
      invariant |masked| == i
      invariant forall k :: 0 <= k < i ==> SameShape(pats[k], masked[k])
      invariant forall k :: 0 <= k < i ==> WellFormed(insnmask, masked[k]) && Annotated(insnmask, masked[k])
    {
      var c := PropMasks(insnmask, pats[i]);
      masked := masked + [c];
    }
    var built := BuildAll(insnmask, Exc(0, 0, masked));
    TopBuildsIff(insnmask, masked);
    if !built {
      return masked, None;
    }
    forall insn: nat, ok: Attempt -> bool, u: Union
      ensures var o := Run(Decoder(insnmask, masked), insn, ok, u);
        var flat := Reference(Exc(0, 0, pats), insn);
        o.trace == UpToFirst(ok, flat) && o.returned == Accepted(ok, flat)
    {
      DecoderMeaning(insnmask, masked, insn, ok, u);
      ShapeReference(Exc(0, 0, pats), Exc(0, 0, masked), insn);
    }
    return masked, Some(Decoder(insnmask, masked));
  }

  /** Once a group builds, a word matches at most one of its members. */
  lemma GroupIsExclusive(insnmask: nat, n: Node, i: nat, j: nat, insn: nat)
    requires n.Exc? && Builds(insnmask, n) && i < j < |n.pats|
    ensures !(n.pats[i].Matches(insn) && n.pats[j].Matches(insn))
  {
    var ix := Iota(|n.pats|);
    assert ix[i] == i && ix[j] == j;
    BuiltIsExclusive(insnmask, n.pats, ix, n.mask, i, j, insn);
  }
}
