/** Code emission of the decoder generator and the meaning of the emitted code
    (scripts/decodetree.py, the output_code methods, lines 560-596, 690-702, 736-775,
    783-785, and __prop_format, lines 840-856). */
module DecodeEmit {
  import opened BitOps
  import opened DecodeMasks
  import opened DecodeTree

  // ---- the emitted statements ----

  datatype Stmt =
    | Extract(fmt: Format)                                  // decode_extract_F(ctx, &u.f_A, insn);
    | PatFields(pat: Pattern)                               // u.f_A.n = ...; for the pattern's own fields
    | Try(pat: Pattern)                                     // if (trans_P(ctx, &u.f_A)) return true;
    | IfMatch(mask: nat, bits: nat, body: seq<Stmt>)        // if ((insn & mask) == bits) { ... }
    | Switch(shift: nat, mask: nat, cases: seq<Case>)       // switch ((insn >> shift) & mask) { ... }
  datatype Case = Case(bits: nat, caseLabel: nat, body: seq<Stmt>)

  /** Where the value of an argument comes from: a field of a format or of a pattern,
      together with the argument values its expression refers to. */
  datatype Value =
    | FmtVal(fmt: Format, field: string, fmtRefs: map<string, Value>)
    | PatVal(pat: Pattern, field: string, patRefs: map<string, Value>)

  /** The union `u`: the argument set written last, and its members' values. */
  datatype Union = Union(arg: string, vals: map<string, Value>)

  datatype Attempt = Attempt(pat: Pattern, args: map<string, Value>)

  datatype Outcome = Outcome(u: Union, trace: seq<Attempt>, returned: bool)

  function Members(u: Union, arg: string): map<string, Value> {
    if u.arg == arg then u.vals else map[]
  }

  function Restrict(m: map<string, Value>, names: set<string>): map<string, Value> {
    map n | n in names && n in m :: m[n]
  }

  function RunExtract(f: Format, u: Union): Union {
    var old_ := Members(u, f.arg);
    Union(f.arg, old_ + map n | n in f.fields :: FmtVal(f, n, Restrict(old_, f.dangling)))
  }

  function RunPatFields(p: Pattern, u: Union): Union {
    var old_ := Members(u, p.base.arg);
    Union(p.base.arg, old_ + map n | n in p.fields :: PatVal(p, n, Restrict(old_, p.dangling)))
  }

  function ArgsOf(p: Pattern, u: Union): map<string, Value> {
    Restrict(Members(u, p.base.arg), p.base.fields + p.fields)
  }

  /** The first case with this label, as a C switch selects it; |cases| if there is none. */
  function FindCase(cases: seq<Case>, caseLabel: nat): (k: nat)
    ensures k <= |cases|
    ensures k < |cases| ==> cases[k].caseLabel == caseLabel
    ensures forall j :: 0 <= j < k ==> cases[j].caseLabel != caseLabel
  {
    if |cases| == 0 then 0
    else if cases[0].caseLabel == caseLabel then 0
    else
      var k := FindCase(cases[1..], caseLabel);
      assert forall j :: 0 < j < k + 1 ==> cases[j] == cases[1..][j - 1];
      k + 1
  }

  /** Runs the code on a word.  `ok` says which attempts trans_* accepts. */
  function Run(code: seq<Stmt>, insn: nat, ok: Attempt -> bool, u: Union): Outcome
    decreases code, 1
  {
    if |code| == 0 then Outcome(u, [], false)
    else
      var first := Step(code[0], insn, ok, u);
      if first.returned then first
      else
        var rest := Run(code[1..], insn, ok, first.u);
        Outcome(rest.u, first.trace + rest.trace, rest.returned)
  }

  function Step(s: Stmt, insn: nat, ok: Attempt -> bool, u: Union): Outcome
    decreases s, 0
  {
    match s
    case Extract(f) => Outcome(RunExtract(f, u), [], false)
    case PatFields(p) => Outcome(RunPatFields(p, u), [], false)
    case Try(p) =>
      var a := Attempt(p, ArgsOf(p, u));
      Outcome(u, [a], ok(a))
    case IfMatch(mask, bits, body) =>
      if And(insn, mask) == bits then Run(body, insn, ok, u) else Outcome(u, [], false)
    case Switch(shift, mask, cases) =>
      var k := FindCase(cases, And(Shr(insn, shift), mask));
      if k < |cases| then Run(cases[k].body, insn, ok, u) else Outcome(u, [], false)
  }

  // ---- emission ----

  /** Pattern.output_code. */
  function EmitPattern(p: Pattern, extracted: bool): seq<Stmt> {
    var extract := if extracted then [] else [Extract(p.base)];
    if p.base.dangling != {} then [PatFields(p)] + extract + [Try(p)]
    else extract + [PatFields(p)] + [Try(p)]
  }

  function Iota(n: nat): (s: seq<nat>)
    ensures |s| == n && forall i :: 0 <= i < n ==> s[i] == i
  {
    seq(n, i => i)
  }

  /** The tree build_tree attaches to an exclusive group. */
  function TreeOf(insnmask: nat, n: Node): Option<Tree>
    requires n.Exc?
  {
    Build(insnmask, n.pats, Iota(|n.pats|), n.mask)
  }

  /** No `overlapping patterns` error anywhere below. */
  predicate Builds(insnmask: nat, n: Node) {
    match n
    case Leaf(_) => true
    case Inc(_, _, ps) => forall i :: 0 <= i < |ps| ==> Builds(insnmask, ps[i])
    case Exc(_, _, ps) => TreeOf(insnmask, n).Some? && forall i :: 0 <= i < |ps| ==> Builds(insnmask, ps[i])
  }

  predicate TreeInRange(pats: seq<Node>, t: Tree) {
    forall k :: 0 <= k < |t.subs| ==> SubInRange(pats, t.subs[k].sub)
  }

  predicate SubInRange(pats: seq<Node>, s: Sub) {
    match s
    case SubPat(i) => i < |pats|
    case SubTree(t) => TreeInRange(pats, t)
  }

  /** The format __prop_format records in a tree: the one all entries share, if any.
      A nested group has none. */
  function TreeBase(pats: seq<Node>, t: Tree): Option<Format>
    requires TreeInRange(pats, t)
    decreases t, 0
  {
    if |t.subs| == 0 then None
    else
      var f := SubBase(pats, t.subs[0].sub);
      if f.Some? && forall k :: 0 <= k < |t.subs| ==> SubBase(pats, t.subs[k].sub) == f then f else None
  }

  function SubBase(pats: seq<Node>, s: Sub): Option<Format>
    requires SubInRange(pats, s)
    decreases s, 1
  {
    match s
    case SubPat(i) => if pats[i].Leaf? then Some(pats[i].p.base) else None
    case SubTree(t) => TreeBase(pats, t)
  }

  /** Insertion of a case by its bits, as sorted(self.subs) orders them. */
  function InsertCase(c: Case, cases: seq<Case>): seq<Case> {
    if |cases| == 0 || c.bits <= cases[0].bits then [c] + cases
    else [cases[0]] + InsertCase(c, cases[1..])
  }

  function SortCases(cases: seq<Case>): seq<Case> {
    if |cases| == 0 then [] else InsertCase(cases[0], SortCases(cases[1..]))
  }

  function SwitchShift(mask: nat): nat {
    var sh := ContiguousShift(mask);
    if sh > 0 then sh else 0
  }

  /** output_code of a node under the tests already made, `outermask`. */
  function Emit(insnmask: nat, n: Node, extracted: bool, outermask: nat): seq<Stmt>
    requires Builds(insnmask, n)
    decreases n
  {
    match n
    case Leaf(p) => EmitPattern(p, extracted)
    case Inc(_, _, ps) => EmitInc(insnmask, n, extracted, outermask, |ps|)
    case Exc(_, _, ps) =>
      BuiltInRange(insnmask, ps, Iota(|ps|), n.mask);
      EmitTree(insnmask, n, TreeOf(insnmask, n).value, extracted, outermask)
  }

  /** The first `k` members of an inclusive group, each behind its untested bits. */
  function EmitInc(insnmask: nat, n: Node, extracted: bool, outermask: nat, k: nat): seq<Stmt>
    requires n.Inc? && Builds(insnmask, n) && k <= |n.pats|
    decreases n, k
  {
    if k == 0 then []
    else
      EmitInc(insnmask, n, extracted, outermask, k - 1) + EmitMember(insnmask, n, extracted, outermask, k - 1)
  }

  function EmitMember(insnmask: nat, n: Node, extracted: bool, outermask: nat, k: nat): seq<Stmt>
    requires n.Inc? && Builds(insnmask, n) && k < |n.pats|
    decreases n, k, 0
  {
    var c := n.pats[k];
    var body := Emit(insnmask, c, extracted, c.FixedMask());
    if outermask != c.FixedMask() then
      [IfMatch(AndNot(c.FixedMask(), outermask), AndNot(c.FixedBits(), outermask), body)]
    else body
  }

  function EmitTree(insnmask: nat, n: Node, t: Tree, extracted: bool, outermask: nat): seq<Stmt>
    requires n.Exc? && Builds(insnmask, n) && TreeInRange(n.pats, t)
    decreases n, t
  {
    var base := TreeBase(n.pats, t);
    var hoist := !extracted && base.Some? && base.value.dangling == {};
    var shift := SwitchShift(t.thismask);
    var cases := EmitCases(insnmask, n, t, extracted || hoist, Or(outermask, t.thismask), |t.subs|);
    (if hoist then [Extract(base.value)] else []) + [Switch(shift, Shr(t.thismask, shift), SortCases(cases))]
  }

  function EmitCases(insnmask: nat, n: Node, t: Tree, extracted: bool, innermask: nat, k: nat): (r: seq<Case>)
    requires n.Exc? && Builds(insnmask, n) && TreeInRange(n.pats, t) && k <= |t.subs|
    ensures |r| == k
    ensures forall j :: 0 <= j < k ==> r[j].bits == t.subs[j].bits
    ensures forall j :: 0 <= j < k ==> r[j].caseLabel == Shr(t.subs[j].bits, SwitchShift(t.thismask))
    ensures forall j :: 0 <= j < k ==> r[j].body == EmitSub(insnmask, n, t, j, extracted, innermask)
    decreases n, t, k
  {
    if k == 0 then []
    else
      var e := t.subs[k - 1];
      EmitCases(insnmask, n, t, extracted, innermask, k - 1)
        + [Case(e.bits, Shr(e.bits, SwitchShift(t.thismask)), EmitSub(insnmask, n, t, k - 1, extracted, innermask))]
  }

  function EmitSub(insnmask: nat, n: Node, t: Tree, k: nat, extracted: bool, innermask: nat): seq<Stmt>
    requires n.Exc? && Builds(insnmask, n) && TreeInRange(n.pats, t) && k < |t.subs|
    decreases n, t, k, 0
  {
    assert SubInRange(n.pats, t.subs[k].sub);
    match t.subs[k].sub
    case SubPat(i) => Emit(insnmask, n.pats[i], extracted, innermask)
    case SubTree(s) => EmitTree(insnmask, n, s, extracted, innermask)
  }

  lemma {:induction false} BuiltInRange(insnmask: nat, pats: seq<Node>, ix: seq<nat>, outermask: nat)
    requires InRange(pats, ix) && Build(insnmask, pats, ix, outermask).Some?
    ensures TreeInRange(pats, Build(insnmask, pats, ix, outermask).value)
    decreases AndNot(insnmask, outermask)
  {
    var t := Build(insnmask, pats, ix, outermask).value;
    var inner := Meet(AndNot(insnmask, outermask), pats, ix);
    if inner != 0 {
      BinsPartition(pats, ix, inner);
      MaskGrows(insnmask, pats, ix, outermask);
      var bins, full := Bins(pats, ix, inner), Or(outermask, inner);
      forall k | 0 <= k < |t.subs| ensures SubInRange(pats, t.subs[k].sub) {
        BuildSubsAt(insnmask, pats, bins, full, k);
        if t.subs[k].sub.SubTree? {
          BuiltInRange(insnmask, pats, bins[k].members, full);
        }
      }
    }
  }

  // ---- the reference: the flat textual list ----

  /** The arguments a pattern must be tried with: its format's fields and its own, each
      referring only to values that belong to this very pattern. */
  function ExpectedArgs(p: Pattern): map<string, Value> {
    var plainPat := map n | n in p.fields :: PatVal(p, n, map[]);
    var plainFmt := map n | n in p.base.fields :: FmtVal(p.base, n, map[]);
    if p.base.dangling != {} then
      (map n | n in p.base.fields :: FmtVal(p.base, n, Restrict(plainPat, p.base.dangling))) + plainPat
    else
      plainFmt + (map n | n in p.fields :: PatVal(p, n, Restrict(plainFmt, p.dangling)))
  }

  function Reference(n: Node, insn: nat): seq<Attempt>
    decreases n
  {
    match n
    case Leaf(p) => if n.Matches(insn) then [Attempt(p, ExpectedArgs(p))] else []
    case _ => Listed(n, Iota(|n.pats|), insn)
  }

  /** The listed members' attempts, in order. */
  function Listed(n: Node, ix: seq<nat>, insn: nat): seq<Attempt>
    requires !n.Leaf? && InRange(n.pats, ix)
    decreases n, |ix|
  {
    if |ix| == 0 then []
    else Listed(n, ix[..|ix| - 1], insn) + Reference(n.pats[ix[|ix| - 1]], insn)
  }

  /** Trying stops at the first accepted attempt. */
  function UpToFirst(ok: Attempt -> bool, a: seq<Attempt>): seq<Attempt> {
    if |a| == 0 then []
    else if ok(a[0]) then [a[0]]
    else [a[0]] + UpToFirst(ok, a[1..])
  }

  predicate Accepted(ok: Attempt -> bool, a: seq<Attempt>) {
    |a| > 0 && (ok(a[0]) || Accepted(ok, a[1..]))
  }
}
