/** The global branch history and its consumer (src/pred/history/ghr.cpp,
    src/pred/bp/gshare.cpp, inc/common/common.h lines 164-177). */
module BranchHistory {
  import opened BitOps

  datatype Option<T> = None | Some(value: T)

  const TWO31: nat := 0x8000_0000
  const TWO32: nat := 0x1_0000_0000

  // ---- the shift register ----

  /** `bits[0]` is the newest outcome; `idx` counts modulo 2^32. */
  datatype Ghr = Ghr(bits: seq<bool>, idx: nat)

  function Fill(b: bool, k: nat): (s: seq<bool>)
    ensures |s| == k && forall i :: 0 <= i < k ==> s[i] == b
  {
    seq(k, _ => b)
  }

  /** dynamic_bitset's `<<` by one and `set(0, b)`. */
  function ShiftIn(bits: seq<bool>, b: bool): (r: seq<bool>)
    ensures |r| == |bits|
  {
    if |bits| == 0 then [] else [b] + bits[..|bits| - 1]
  }

  /** dynamic_bitset's `>>`. */
  function ShiftOut(bits: seq<bool>, k: nat): (r: seq<bool>)
    ensures |r| == |bits|
  {
    if k >= |bits| then Fill(false, |bits|) else bits[k..] + Fill(false, k)
  }

  function Push(g: Ghr, taken: bool): Ghr {
    Ghr(ShiftIn(g.bits, taken), (g.idx + 1) % TWO32)
  }

  /** The difference of two unsigned counters as an int; a negative one shifts everything out. */
  function Distance(g: Ghr, to: nat): nat
    requires g.idx < TWO32 && to < TWO32
  {
    var d := (g.idx + TWO32 - to) % TWO32;
    if d < TWO31 then d else |g.bits|
  }

  function Rollback(g: Ghr, to: nat): Ghr
    requires g.idx < TWO32 && to < TWO32
  {
    Ghr(ShiftOut(g.bits, Distance(g, to)), to)
  }

  /** GHR::update; `checkpoint` is what getMeta stored. */
  function Update(g: Ghr, speculative: bool, taken: bool, cond: bool, checkpoint: nat): Ghr
    requires g.idx < TWO32 && checkpoint < TWO32
  {
    var g1 := if speculative then g else Rollback(g, checkpoint);
    if cond then Push(g1, taken) else g1
  }

  // ---- what it should hold ----

  /** All outcomes since the start, those on wrong paths taken back; and how many of the newest
      the register still holds. */
  datatype Logical = Logical(outcomes: seq<bool>, valid: nat)

  function Min(a: nat, b: nat): nat {
    if a < b then a else b
  }

  function LogicalPush(l: Logical, n: nat, taken: bool): Logical {
    Logical(l.outcomes + [taken], Min(n, l.valid + 1))
  }

  /** Take back the newest k. */
  function LogicalRollback(l: Logical, k: nat): Logical
    requires k <= |l.outcomes|
  {
    Logical(l.outcomes[..|l.outcomes| - k], if k <= l.valid then l.valid - k else 0)
  }

  /** The i-th newest outcome; not taken before the start. */
  function Newest(outcomes: seq<bool>, i: nat): bool {
    if i < |outcomes| then outcomes[|outcomes| - 1 - i] else false
  }

  ghost predicate Holds(g: Ghr, l: Logical) {
    && g.idx == |l.outcomes| % TWO32
    && l.valid <= |g.bits| && l.valid <= |l.outcomes|
    && forall i :: 0 <= i < |g.bits| ==> g.bits[i] == (i < l.valid && Newest(l.outcomes, i))
  }

  lemma PushHolds(g: Ghr, l: Logical, taken: bool)
    requires Holds(g, l)
    ensures Holds(Push(g, taken), LogicalPush(l, |g.bits|, taken))
  {
    IdxStep(|l.outcomes|);
    var l' := LogicalPush(l, |g.bits|, taken);
    forall i | 0 <= i < |g.bits| ensures Push(g, taken).bits[i] == (i < l'.valid && Newest(l'.outcomes, i)) {
      if i > 0 { assert Newest(l'.outcomes, i) == Newest(l.outcomes, i - 1); }
    }
  }

  lemma IdxStep(n: nat)
    ensures (n % TWO32 + 1) % TWO32 == (n + 1) % TWO32
  {}

  lemma IdxBack(n: nat, k: nat)
    requires k <= n && k < TWO31
    ensures (n % TWO32 + TWO32 - (n - k) % TWO32) % TWO32 == k
  {}

  lemma RollbackHolds(g: Ghr, l: Logical, k: nat)
    requires Holds(g, l) && k <= |l.outcomes| && k < TWO31
    ensures Holds(Rollback(g, (|l.outcomes| - k) % TWO32), LogicalRollback(l, k))
  {
    IdxBack(|l.outcomes|, k);
    assert Distance(g, (|l.outcomes| - k) % TWO32) == k;
    var g', l' := Rollback(g, (|l.outcomes| - k) % TWO32), LogicalRollback(l, k);
    forall i | 0 <= i < |g.bits| ensures g'.bits[i] == (i < l'.valid && Newest(l'.outcomes, i)) {
      if k < |g.bits| && i < |g.bits| - k {
        assert g'.bits[i] == g.bits[i + k];
      }
    }
  }

  // ---- runs ----

  /** A conditional branch predicted (and pushed), or a return to the checkpoint k outcomes back,
      with the real outcome of a conditional branch. */
  datatype Step = Speculate(taken: bool) | Redirect(back: nat, cond: bool, taken: bool)

  predicate Sensible(l: Logical, s: Step) {
    s.Redirect? ==> s.back <= |l.outcomes| && s.back < TWO31
  }

  function NextGhr(g: Ghr, l: Logical, s: Step): Ghr
    requires g.idx < TWO32 && Sensible(l, s)
  {
    match s
    case Speculate(taken) => Update(g, true, taken, true, 0)
    case Redirect(back, cond, taken) => Update(g, false, taken, cond, (|l.outcomes| - back) % TWO32)
  }

  function NextLogical(l: Logical, n: nat, s: Step): Logical
    requires Sensible(l, s)
  {
    match s
    case Speculate(taken) => LogicalPush(l, n, taken)
    case Redirect(back, cond, taken) =>
      var l1 := LogicalRollback(l, back);
      if cond then LogicalPush(l1, n, taken) else l1
  }

  lemma NextHolds(g: Ghr, l: Logical, s: Step)
    requires Holds(g, l) && Sensible(l, s)
    ensures Holds(NextGhr(g, l, s), NextLogical(l, |g.bits|, s)) && |NextGhr(g, l, s).bits| == |g.bits|
  {
    match s
    case Speculate(taken) => PushHolds(g, l, taken);
    case Redirect(back, cond, taken) =>
      RollbackHolds(g, l, back);
      if cond {
        PushHolds(Rollback(g, (|l.outcomes| - back) % TWO32), LogicalRollback(l, back), taken);
      }
  }

  /** Both sides of a run from reset; a step that is not sensible does nothing. */
  function Run(n: nat, steps: seq<Step>): (r: (Ghr, Logical))
    ensures Holds(r.0, r.1) && |r.0.bits| == n
  {
    if |steps| == 0 then (Ghr(Fill(false, n), 0), Logical([], 0))
    else
      var (g, l) := Run(n, steps[..|steps| - 1]);
      var s := steps[|steps| - 1];
      if Sensible(l, s) then
        NextHolds(g, l, s);
        (NextGhr(g, l, s), NextLogical(l, n, s))
      else (g, l)
  }

  // ---- the machine that never mispredicts ----

  function PushAll(g: Ghr, outcomes: seq<bool>): Ghr {
    if |outcomes| == 0 then g else Push(PushAll(g, outcomes[..|outcomes| - 1]), outcomes[|outcomes| - 1])
  }

  function Ideal(n: nat, outcomes: seq<bool>): Ghr {
    PushAll(Ghr(Fill(false, n), 0), outcomes)
  }

  lemma {:induction false} IdealHolds(n: nat, outcomes: seq<bool>)
    ensures |Ideal(n, outcomes).bits| == n && Holds(Ideal(n, outcomes), Logical(outcomes, Min(n, |outcomes|)))
  {
    if |outcomes| > 0 {
      var front := outcomes[..|outcomes| - 1];
      IdealHolds(n, front);
      PushHolds(Ideal(n, front), Logical(front, Min(n, |front|)), outcomes[|outcomes| - 1]);
      assert front + [outcomes[|outcomes| - 1]] == outcomes;
    }
  }

  /** After any mix of speculation and rollbacks, the low h bits are those of a machine that was
      only told the outcomes that stand, exactly when every outcome lost in between was `not
      taken`; and so whenever at least h are still held. */
  lemma LowBitsMatchIdeal(n: nat, steps: seq<Step>, h: nat)
    requires h <= n
    ensures var (g, l) := Run(n, steps);
      var ideal := Ideal(n, l.outcomes);
      && |ideal.bits| == n
      && (g.bits[..h] == ideal.bits[..h] <==> forall i :: l.valid <= i < h ==> !Newest(l.outcomes, i))
      && (l.valid >= h ==> g.bits[..h] == ideal.bits[..h])
  {
    var (g, l) := Run(n, steps);
    var ideal := Ideal(n, l.outcomes);
    IdealHolds(n, l.outcomes);
    assert forall i :: 0 <= i < n ==> ideal.bits[i] == Newest(l.outcomes, i);
    if g.bits[..h] == ideal.bits[..h] {
      forall i | l.valid <= i < h ensures !Newest(l.outcomes, i) {
        assert g.bits[..h][i] == ideal.bits[..h][i];
      }
    }
  }

  // ---- reading it as a number ----

  function ToNat(bits: seq<bool>): nat {
    if |bits| == 0 then 0 else 2 * ToNat(bits[1..]) + (if bits[0] then 1 else 0)
  }

  lemma {:induction false} ToNatBit(bits: seq<bool>, i: nat)
    ensures Bit(ToNat(bits), i) == (i < |bits| && bits[i])
  {
    if |bits| == 0 { BitZero(i); }
    else if i > 0 { ToNatBit(bits[1..], i - 1); }
  }

  /** to_ulong throws when a bit from position 64 on is set. */
  function LatestBlock(g: Ghr): Option<nat> {
    if exists i :: 64 <= i < |g.bits| && g.bits[i] then None else Some(ToNat(g.bits))
  }

  /** The register never throws exactly if it has at most 64 bits. */
  lemma NeverThrows(n: nat)
    ensures (forall steps :: LatestBlock(Run(n, steps).0).Some?) <==> n <= 64
  {
    if n > 64 {
      var steps := TakenThen(64);
      OneTaken(n, 64);
      var g := Run(n, steps).0;
      assert g.bits[64];
    }
  }

  /** One branch taken, then k not taken. */
  function TakenThen(k: nat): seq<Step> {
    if k == 0 then [Speculate(true)] else TakenThen(k - 1) + [Speculate(false)]
  }

  lemma {:induction false} OneTaken(n: nat, k: nat)
    requires k < n
    ensures var l := Run(n, TakenThen(k)).1; l.valid == k + 1 && |l.outcomes| == k + 1 && l.outcomes[0]
  {
    if k > 0 {
      OneTaken(n, k - 1);
      assert TakenThen(k)[..k] == TakenThen(k - 1) by { TakenLength(k - 1); }
      TakenLength(k);
    } else {
      assert TakenThen(0)[..0] == [];
    }
  }

  lemma {:induction false} TakenLength(k: nat)
    ensures |TakenThen(k)| == k + 1
  {
    if k > 0 { TakenLength(k - 1); }
  }
}
